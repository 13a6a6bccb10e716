/** WebSocket frames as `navegador.py` writes and reads them (RFC 6455, section 5.2), on byte strings. */
module Tramas {
  import opened Octetos
  import opened Textos

  // -- Masking (section 5.3) ------------------------------------------------------------------------

  /** Exclusive or of the `k` low bits of two numbers. */
  function XorBits(a: nat, b: nat, k: nat): (r: nat) {
    if k == 0 then 0 else (a % 2 + b % 2) % 2 + 2 * XorBits(a / 2, b / 2, k - 1)
  }

  lemma {:induction false} XorAcotado(a: nat, b: nat, k: nat)
    ensures XorBits(a, b, k) < Pot2(k)
  {
    if k > 0 {
      XorAcotado(a / 2, b / 2, k - 1);
    }
  }

  lemma {:induction false} XorBitsDosVeces(a: nat, b: nat, k: nat)
    requires a < Pot2(k)
    ensures XorBits(XorBits(a, b, k), b, k) == a
  {
    if k > 0 {
      var x := XorBits(a, b, k);
      assert x % 2 == (a % 2 + b % 2) % 2 && x / 2 == XorBits(a / 2, b / 2, k - 1);
      XorBitsDosVeces(a / 2, b / 2, k - 1);
      assert (x % 2 + b % 2) % 2 == a % 2;
    }
  }

  function Pot2(k: nat): (p: nat)
    ensures p >= 1
  {
    if k == 0 then 1 else 2 * Pot2(k - 1)
  }

  function Xor(a: byte, b: byte): byte {
    XorAcotado(a, b, 8);
    assert Pot2(5) == 32 && Pot2(8) == 8 * Pot2(5);
    XorBits(a, b, 8)
  }

  lemma XorDosVeces(a: byte, b: byte)
    ensures Xor(Xor(a, b), b) == a
  {
    assert Pot2(5) == 32 && Pot2(8) == 8 * Pot2(5);
    XorBitsDosVeces(a, b, 8);
  }

  type Mascara = m: Bytes | |m| == 4 witness [0, 0, 0, 0]

  /** Byte `i` against byte `i % 4` of the mask, from position `i` on. */
  function EnmascaraDesde(datos: Bytes, m: Mascara, i: nat): (r: Bytes)
    ensures |r| == |datos|
  {
    if datos == [] then [] else [Xor(datos[0], m[i % 4])] + EnmascaraDesde(datos[1..], m, i + 1)
  }

  function Enmascara(datos: Bytes, m: Mascara): (r: Bytes)
    ensures |r| == |datos|
  {
    EnmascaraDesde(datos, m, 0)
  }

  /** Masking is its own inverse. */
  lemma {:induction false} EnmascaraDosVeces(datos: Bytes, m: Mascara, i: nat)
    ensures EnmascaraDesde(EnmascaraDesde(datos, m, i), m, i) == datos
  {
    if datos != [] {
      XorDosVeces(datos[0], m[i % 4]);
      EnmascaraDosVeces(datos[1..], m, i + 1);
    }
  }

  // -- Big-endian lengths ------------------------------------------------------------------------------

  /** `struct.pack` of an unsigned number in `k` bytes, big end first. */
  function BE(n: nat, k: nat): (r: Bytes)
    ensures |r| == k
  {
    if k == 0 then [] else BE(n / 256, k - 1) + [n % 256]
  }

  function DeBE(s: Bytes): nat {
    if s == [] then 0 else 256 * DeBE(s[..|s| - 1]) + s[|s| - 1]
  }

  lemma {:induction false} DeBEVuelve(n: nat, k: nat)
    requires n < Pot256(k)
    ensures DeBE(BE(n, k)) == n
  {
    if k > 0 {
      DeBEVuelve(n / 256, k - 1);
      assert BE(n, k)[..k - 1] == BE(n / 256, k - 1);
    }
  }

  // -- Frames ---------------------------------------------------------------------------------------------

  /** Which of the three length fields the frame uses. */
  datatype Forma = De7 | De16 | De64

  datatype Trama = Trama(fin: bool, opcode: nat, forma: Forma, mascara: Option<Mascara>, carga: Bytes) {
    predicate Valid() {
      && opcode < 16
      && match forma
         case De7 => |carga| < 126
         case De16 => |carga| < 65536
         case De64 => |carga| < DOS_A_LA_64
    }
  }

  function Longitud(n: nat, f: Forma): Bytes {
    match f
    case De7 => []
    case De16 => BE(n, 2)
    case De64 => BE(n, 8)
  }

  function Segundo(t: Trama): byte
    requires t.Valid()
  {
    (if t.mascara.Some? then 128 else 0)
    + match t.forma
      case De7 => |t.carga|
      case De16 => 126
      case De64 => 127
  }

  /** The bytes of a frame. */
  function Codifica(t: Trama): Bytes
    requires t.Valid()
  {
    [(if t.fin then 128 else 0) + t.opcode, Segundo(t)]
    + Longitud(|t.carga|, t.forma)
    + match t.mascara
      case None => t.carga
      case Some(m) => m + Enmascara(t.carga, m)
  }

  /** What a frame says once it is read: its end bit, its opcode and its payload without mask. */
  datatype Leida = Leida(fin: bool, opcode: nat, carga: Bytes)

  /** How many bytes the length field adds after the first two. */
  function AnchoLongitud(b2: byte): nat {
    if b2 % 128 == 126 then 2 else if b2 % 128 == 127 then 8 else 0
  }

  /** Section 5.2 read backwards: the first frame of a stream and what follows, if it is all there. */
  function LeeTrama(s: Bytes): (r: Option<(Leida, Bytes)>)
    ensures r.Some? ==> |r.value.1| + 2 <= |s|
  {
    if |s| < 2 then None
    else
      var a := AnchoLongitud(s[1]);
      if |s| < 2 + a then None
      else
        var n := if a == 0 then s[1] % 128 else DeBE(s[2..2 + a]);
        var k := if s[1] >= 128 then 4 else 0;
        if |s| < 2 + a + k + n then None
        else
          var crudos := s[2 + a + k..2 + a + k + n];
          var carga := if k == 4 then Enmascara(crudos, s[2 + a..2 + a + 4]) else crudos;
          Some((Leida(s[0] >= 128, s[0] % 16, carga), s[2 + a + k + n..]))
  }

  lemma LongitudVuelve(t: Trama)
    requires t.Valid()
    ensures var b2 := Segundo(t); var l := Longitud(|t.carga|, t.forma);
            && |l| == AnchoLongitud(b2) && (b2 >= 128 <==> t.mascara.Some?)
            && (if |l| == 0 then b2 % 128 else DeBE(l)) == |t.carga|
  {
    Potencias();
    if t.forma == De16 {
      DeBEVuelve(|t.carga|, 2);
    } else if t.forma == De64 {
      DeBEVuelve(|t.carga|, 8);
    }
  }

  /** Where the parts of a frame lie once its bytes are put together. */
  lemma Partes(b1: byte, b2: byte, l: Bytes, m: Bytes, e: Bytes, cola: Bytes)
    ensures var s := [b1, b2] + l + m + e + cola; var i := 2 + |l|; var j := i + |m|; var k := j + |e|;
            && |s| == k + |cola| && s[0] == b1 && s[1] == b2 && s[2..i] == l && s[i..j] == m
            && s[j..k] == e && s[k..] == cola
  {
    var s := [b1, b2] + l + m + e + cola;
    assert s == [b1, b2] + (l + (m + (e + cola)));
  }

  /** Reading back the bytes of any frame, whatever its length field and its mask, gives the frame and
      leaves exactly what came after it. */
  lemma LeeCodifica(t: Trama, cola: Bytes)
    requires t.Valid()
    ensures LeeTrama(Codifica(t) + cola) == Some((Leida(t.fin, t.opcode, t.carga), cola))
  {
    hide Enmascara, DeBE, BE, Longitud, Segundo, AnchoLongitud;
    var s := Codifica(t) + cola;
    var b1 := (if t.fin then 128 else 0) + t.opcode;
    var l := Longitud(|t.carga|, t.forma);
    LongitudVuelve(t);
    var m := if t.mascara.Some? then t.mascara.value else [];
    var e := if t.mascara.Some? then Enmascara(t.carga, t.mascara.value) else t.carga;
    assert |e| == |t.carga|;
    assert s == [b1, Segundo(t)] + l + m + e + cola;
    Partes(b1, Segundo(t), l, m, e, cola);
    assert b1 % 16 == t.opcode && (b1 >= 128 <==> t.fin);
    if t.mascara.Some? {
      EnmascaraEntera(t.carga, t.mascara.value);
    }
  }

  lemma EnmascaraEntera(datos: Bytes, m: Mascara)
    ensures Enmascara(Enmascara(datos, m), m) == datos
  {
    EnmascaraDosVeces(datos, m, 0);
  }

  // -- Frames that the client writes --------------------------------------------------------------------------

  function FormaMinima(n: nat): Forma { if n < 126 then De7 else if n < 65536 then De16 else De64 }

  /** The one frame of `enviar`: final, text, masked. */
  function TramaDeTexto(carga: Bytes, m: Mascara): (t: Trama)
    requires |carga| < DOS_A_LA_64
    ensures t.Valid()
  {
    Trama(true, 1, FormaMinima(|carga|), Some(m), carga)
  }

  /** Every payload under 2^64 bytes goes out as one final text frame from which section 5.2 gives back
      the payload, and no frame with that payload and that mask is shorter. */
  lemma EnviadaSeLee(carga: Bytes, m: Mascara, cola: Bytes, otra: Forma)
    requires |carga| < DOS_A_LA_64
    ensures LeeTrama(Codifica(TramaDeTexto(carga, m)) + cola) == Some((Leida(true, 1, carga), cola))
    ensures var u := Trama(true, 1, otra, Some(m), carga);
            u.Valid() ==> |Codifica(TramaDeTexto(carga, m))| <= |Codifica(u)|
  {
    LeeCodifica(TramaDeTexto(carga, m), cola);
  }

  // -- Messages -------------------------------------------------------------------------------------------------

  /** What `recibir` finds in a stream: a message, a close frame, or not enough bytes. */
  datatype Recibido =
    | Mensaje(texto: Bytes, pongs: nat, resto: Bytes)
    | Cierre(pongs: nat, resto: Bytes)
    | Falta(pongs: nat)
  {
    function MasPongs(k: nat): Recibido {
      match this
      case Mensaje(t, p, r) => Mensaje(t, p + k, r)
      case Cierre(p, r) => Cierre(p + k, r)
      case Falta(p) => Falta(p + k)
    }
  }

  /** The message that starts a stream, `acum` being the fragments already joined. */
  function Recibir(s: Bytes, acum: Bytes): Recibido
    decreases |s|
  {
    var r := LeeTrama(s);
    if r.None? then Falta(0)
    else
      var (t, resto) := r.value;
      if t.opcode == 8 then Cierre(0, resto)
      else if t.opcode == 9 then Recibir(resto, acum).MasPongs(1)
      else if t.opcode > 1 then Recibir(resto, acum)
      else if t.fin then Mensaje(acum + t.carga, 0, resto)
      else Recibir(resto, acum + t.carga)
  }

  function CodificaTodas(ts: seq<Trama>): Bytes
    requires forall t <- ts :: t.Valid()
  {
    if ts == [] then [] else Codifica(ts[0]) + CodificaTodas(ts[1..])
  }

  predicate EsDatos(t: Trama) { t.opcode <= 1 }

  /** One message: its fragments in order, control frames anywhere between them, the end bit on the last
      fragment only, and no close frame. */
  predicate UnMensaje(ts: seq<Trama>) {
    && |ts| >= 1
    && (forall t <- ts :: t.Valid() && t.opcode != 8)
    && (forall k | 0 <= k < |ts| :: EsDatos(ts[k]) && ts[k].fin <==> k == |ts| - 1)
  }

  /** The payloads of the fragments, joined. */
  function Fragmentos(ts: seq<Trama>): Bytes {
    if ts == [] then [] else (if EsDatos(ts[0]) then ts[0].carga else []) + Fragmentos(ts[1..])
  }

  function Pings(ts: seq<Trama>): nat {
    if ts == [] then 0 else (if ts[0].opcode == 9 then 1 else 0) + Pings(ts[1..])
  }

  /** For any message in any fragments, with any control frames between, masked or not and in any length
      form: its text comes out joined, one pong is owed for each ping, and what follows is untouched. */
  lemma {:induction false} MensajeEntero(ts: seq<Trama>, acum: Bytes, cola: Bytes)
    requires UnMensaje(ts)
    ensures Recibir(CodificaTodas(ts) + cola, acum) == Mensaje(acum + Fragmentos(ts), Pings(ts), cola)
  {
    hide Codifica, LeeTrama;
    var t, us := ts[0], ts[1..];
    var s := CodificaTodas(ts) + cola;
    assert s == Codifica(t) + (CodificaTodas(us) + cola);
    assert t.Valid() && t.opcode != 8;
    LeeCodifica(t, CodificaTodas(us) + cola);
    if |ts| == 1 {
      assert CodificaTodas(us) + cola == cola;
      assert EsDatos(t) && t.fin;
      assert Fragmentos(ts) == t.carga + Fragmentos(us) == t.carga;
    } else {
      ColaDeMensaje(ts);
      assert acum + [] == acum;
      if EsDatos(t) {
        MensajeEntero(us, acum + t.carga, cola);
        assert acum + t.carga + Fragmentos(us) == acum + Fragmentos(ts);
      } else {
        MensajeEntero(us, acum, cola);
        assert [] + Fragmentos(us) == Fragmentos(us);
      }
    }
  }

  lemma ColaDeMensaje(ts: seq<Trama>)
    requires UnMensaje(ts) && |ts| > 1
    ensures UnMensaje(ts[1..]) && !(EsDatos(ts[0]) && ts[0].fin)
  {
    forall k | 0 <= k < |ts[1..]|
      ensures EsDatos(ts[1..][k]) && ts[1..][k].fin <==> k == |ts[1..]| - 1
    {
      assert ts[1..][k] == ts[k + 1];
    }
  }
}
