/** The WebSocket client of `navegador.py` (lines 85-162) over a socket that hands out its bytes in any
    pieces, may run out of time at any of them and may close at any of them. */
module Enchufe {
  import opened Octetos
  import opened Textos
  import opened Tramas

  /** Python's exceptions: the program's own, the socket's timeout, and any other one. */
  datatype Fallo = SinNavegador | Tiempo | Otra

  datatype Trozo = Llega(bytes: Bytes) | Cerrado | SeAcabo

  /** `pendiente` is what the peer will still say before it closes; `enviado` is what it was told, and
      `hueco` how much more it takes before a send runs out of time. */
  class Socket {
    var pendiente: Bytes
    var enviado: Bytes
    var hueco: nat
    var cerrado: bool

    constructor (flujo: Bytes, hueco: nat)
      ensures pendiente == flujo && enviado == [] && this.hueco == hueco && !cerrado
    {
      pendiente, enviado, this.hueco, cerrado := flujo, [], hueco, false;
    }

    /** From 1 to `n` bytes, as many as the network likes. */
    method Recv(n: nat) returns (r: Trozo)
      requires n > 0
      modifies this`pendiente
      ensures match r
              case Llega(b) => 0 < |b| <= n && old(pendiente) == b + pendiente
              case Cerrado => old(pendiente) == pendiente == []
              case SeAcabo => pendiente == old(pendiente)
    {
      if * {
        return SeAcabo;
      }
      if pendiente == [] {
        return Cerrado;
      }
      var k :| 0 < k <= n && k <= |pendiente|;
      r := Llega(pendiente[..k]);
      pendiente := pendiente[k..];
    }

    /** All of it, or as much as the peer takes. After a timeout nobody knows how much more it will take. */
    method SendAll(b: Bytes) returns (r: Result<(), Fallo>)
      modifies this`enviado, this`hueco
      ensures r == if |b| <= old(hueco) then Ok(()) else Err(Tiempo)
      ensures enviado == old(enviado) + if |b| <= old(hueco) then b else b[..old(hueco)]
    {
      if |b| <= hueco {
        enviado, hueco := enviado + b, hueco - |b|;
        return Ok(());
      }
      enviado := enviado + b[..hueco];
      hueco := *;
      return Err(Tiempo);
    }
  }

  // -- The greeting ----------------------------------------------------------------------------------

  const FIN_CABECERA: Bytes := [13, 10, 13, 10]

  /** `HTTP/1.1 101`. */
  const ESTADO: Bytes := [72, 84, 84, 80, 47, 49, 46, 49, 32, 49, 48, 49]

  /** What follows the first blank line. */
  function Corte(s: Bytes): (r: Option<Bytes>)
    ensures r.Some? ==> |r.value| < |s|
  {
    if |s| < 4 then None
    else if s[..4] == FIN_CABECERA then Some(s[4..])
    else Corte(s[1..])
  }

  /** What the client may read as frames, or nothing when the greeting is not good. */
  function Saludo(s: Bytes): Option<Bytes> {
    if ESTADO <= s then Corte(s) else None
  }

  /** Bytes that come later move neither the first blank line nor what follows it. */
  lemma {:induction false} CorteFirme(s: Bytes, mas: Bytes)
    requires Corte(s).Some?
    ensures Corte(s + mas) == Some(Corte(s).value + mas)
  {
    if s[..4] == FIN_CABECERA {
      assert (s + mas)[..4] == FIN_CABECERA && (s + mas)[4..] == s[4..] + mas;
    } else {
      assert (s + mas)[..4] == s[..4];
      assert (s + mas)[1..] == s[1..] + mas;
      CorteFirme(s[1..], mas);
    }
  }

  lemma {:induction false} CorteTrasLinea(s: Bytes, k: nat)
    requires Corte(s).Some? && k <= |s| && forall i | 0 <= i < k :: s[i] != 13
    ensures k + 4 <= |s|
  {
    if k > 0 {
      assert s[..4][0] == s[0] != 13;
      CorteTrasLinea(s[1..], k - 1);
    }
  }

  /** Whatever piece of the stream holds a blank line also holds the whole status, so where the pieces
      were cut does not matter. */
  lemma SaludoFirme(s: Bytes, mas: Bytes)
    requires Corte(s).Some?
    ensures ESTADO <= s <==> ESTADO <= s + mas
    ensures Saludo(s + mas) == if ESTADO <= s then Some(Corte(s).value + mas) else None
  {
    CorteFirme(s, mas);
    if ESTADO <= s + mas {
      var k := if |s| < 12 then |s| else 12;
      forall i | 0 <= i < k
        ensures s[i] != 13
      {
        assert s[i] == (s + mas)[i] == ESTADO[i];
      }
      CorteTrasLinea(s, k);
      assert |s| >= 12;
      assert (s + mas)[..12] == s[..12];
    } else if |s| >= 12 {
      assert (s + mas)[..12] == s[..12];
    }
  }

  // -- Messages read so far ---------------------------------------------------------------------------------

  /** `vistos` are exactly the first messages of `total`, and `flujo` is exactly what follows them. */
  predicate Leido(total: Bytes, vistos: seq<Bytes>, flujo: Bytes)
    decreases |vistos|
  {
    if vistos == [] then total == flujo
    else
      match Tramas.Recibir(total, [])
      case Mensaje(texto, _, resto) => texto == vistos[0] && Leido(resto, vistos[1..], flujo)
      case _ => false
  }

  lemma {:induction false} LeidoUnoMas(total: Bytes, vistos: seq<Bytes>, flujo: Bytes)
    requires Leido(total, vistos, flujo) && Tramas.Recibir(flujo, []).Mensaje?
    ensures var m := Tramas.Recibir(flujo, []); Leido(total, vistos + [m.texto], m.resto)
    decreases |vistos|
  {
    var m := Tramas.Recibir(flujo, []);
    if vistos == [] {
      assert Leido(m.resto, [], m.resto);
    } else {
      LeidoUnoMas(Tramas.Recibir(total, []).resto, vistos[1..], flujo);
      assert (vistos + [m.texto])[1..] == vistos[1..] + [m.texto];
    }
  }

  function CodificaMensajes(mensajes: seq<seq<Trama>>): Bytes
    requires forall k | 0 <= k < |mensajes| :: UnMensaje(mensajes[k])
  {
    if mensajes == [] then []
    else
      assert UnMensaje(mensajes[0]);
      CodificaTodas(mensajes[0]) + CodificaMensajes(mensajes[1..])
  }

  function TextosDe(mensajes: seq<seq<Trama>>): (r: seq<Bytes>)
    ensures |r| == |mensajes|
  {
    if mensajes == [] then [] else [Fragmentos(mensajes[0])] + TextosDe(mensajes[1..])
  }

  /** If the peer sends these messages one after the other, these are the texts that are read, and no
      byte after the last frame is touched. */
  lemma {:induction false} MensajesEnOrden(mensajes: seq<seq<Trama>>, cola: Bytes)
    requires forall k | 0 <= k < |mensajes| :: UnMensaje(mensajes[k])
    ensures Leido(CodificaMensajes(mensajes) + cola, TextosDe(mensajes), cola)
  {
    if mensajes != [] {
      var resto := CodificaMensajes(mensajes[1..]) + cola;
      assert CodificaMensajes(mensajes) + cola == CodificaTodas(mensajes[0]) + resto;
      MensajeEntero(mensajes[0], [], resto);
      assert [] + Fragmentos(mensajes[0]) == Fragmentos(mensajes[0]);
      MensajesEnOrden(mensajes[1..], cola);
    } else {
      assert CodificaMensajes(mensajes) + cola == cola;
    }
  }

  const PONG: Bytes := [0x8A, 0x80, 0, 0, 0, 0]

  function Pongs(k: nat): Bytes {
    if k == 0 then [] else PONG + Pongs(k - 1)
  }

  lemma {:induction false} PongAlFinal(k: nat)
    ensures Pongs(k) + PONG == Pongs(k + 1)
  {
    if k > 0 {
      PongAlFinal(k - 1);
      assert Pongs(k) + PONG == PONG + (Pongs(k - 1) + PONG);
    } else {
      assert [] + PONG == PONG + [];
    }
  }

  /** The pong is one final frame with an empty payload. */
  lemma PongSeLee(cola: Bytes)
    ensures LeeTrama(PONG + cola) == Some((Leida(true, 10, []), cola))
  {
    var t := Trama(true, 10, De7, Some([0, 0, 0, 0]), []);
    assert Codifica(t) == PONG;
    LeeCodifica(t, cola);
  }

  // -- A frame from its parts ------------------------------------------------------------------------------------

  function CuantaCarga(b2: byte, l: Bytes): nat { if |l| == 0 then b2 % 128 else DeBE(l) }

  lemma TramaSinPrincipio(s: Bytes)
    ensures |s| < 2 ==> LeeTrama(s) == None
  {
  }

  lemma TramaSinLongitud(b1: byte, b2: byte, s: Bytes)
    ensures |s| < AnchoLongitud(b2) ==> LeeTrama([b1, b2] + s) == None
  {
    assert ([b1, b2] + s)[1] == b2;
  }

  lemma TramaSinCarga(b1: byte, b2: byte, l: Bytes, s: Bytes)
    requires |l| == AnchoLongitud(b2)
    ensures |s| < (if b2 >= 128 then 4 else 0) + CuantaCarga(b2, l) ==> LeeTrama([b1, b2] + (l + s)) == None
  {
    hide DeBE, Enmascara;
    var f := [b1, b2] + (l + s);
    assert f[1] == b2 && f[2..2 + |l|] == l;
  }

  lemma TramaEntera(b1: byte, b2: byte, l: Bytes, m: Bytes, c: Bytes, cola: Bytes)
    requires |l| == AnchoLongitud(b2) && |m| == (if b2 >= 128 then 4 else 0) && |c| == CuantaCarga(b2, l)
    ensures LeeTrama([b1, b2] + (l + (m + (c + cola))))
            == Some((Leida(b1 >= 128, b1 % 16, if b2 >= 128 then Enmascara(c, m) else c), cola))
  {
    hide DeBE, Enmascara, LeeTrama, AnchoLongitud, CuantaCarga;
    var s := [b1, b2] + l + m + c + cola;
    Partes(b1, b2, l, m, c, cola);
    AsociaCinco([b1, b2], l, m, c, cola);
    TramaCortada(s, b1, b2, l, m, c, cola);
  }

  /** A stream in which the parts of a frame lie where they should. */
  lemma TramaCortada(s: Bytes, b1: byte, b2: byte, l: Bytes, m: Bytes, c: Bytes, cola: Bytes)
    requires |l| == AnchoLongitud(b2) && |m| == (if b2 >= 128 then 4 else 0) && |c| == CuantaCarga(b2, l)
    requires var i := 2 + |l|; var j := i + |m|; var k := j + |c|;
             && |s| == k + |cola| && s[0] == b1 && s[1] == b2 && s[2..i] == l && s[i..j] == m
             && s[j..k] == c && s[k..] == cola
    ensures LeeTrama(s) == Some((Leida(b1 >= 128, b1 % 16, if b2 >= 128 then Enmascara(c, m) else c), cola))
  {
    hide DeBE, Enmascara;
  }

  // -- Whole frames ------------------------------------------------------------------------------------------------

  /** The bytes are frames, one after the other, with none cut short at the end. */
  predicate Enteras(b: Bytes)
    decreases |b|
  {
    b == [] || (LeeTrama(b).Some? && Enteras(LeeTrama(b).value.1))
  }

  lemma Cortes(s: Bytes, i: nat, j: nat, k: nat)
    requires 2 <= i <= j <= k <= |s|
    ensures s == [s[0], s[1]] + s[2..i] + s[i..j] + s[j..k] + s[k..]
  {
    assert [s[0], s[1]] + s[2..i] == s[..i];
    assert s[..i] + s[i..j] == s[..j] && s[..j] + s[j..k] == s[..k];
  }

  lemma LargoDeTrama(s: Bytes)
    requires LeeTrama(s).Some?
    ensures |s| >= 2 && |s| >= 2 + AnchoLongitud(s[1])
    ensures var a := AnchoLongitud(s[1]); |s| >= 2 + a + (if s[1] >= 128 then 4 else 0) + CuantaCarga(s[1], s[2..2 + a])
  {
    hide DeBE, Enmascara, AnchoLongitud;
  }

  /** The parts of the first frame of a stream, and what follows it. */
  lemma EnPartes(s: Bytes) returns (l: Bytes, m: Bytes, c: Bytes, cola: Bytes)
    requires LeeTrama(s).Some?
    ensures |l| == AnchoLongitud(s[1]) && |m| == (if s[1] >= 128 then 4 else 0) && |c| == CuantaCarga(s[1], l)
    ensures s == [s[0], s[1]] + l + m + c + cola
  {
    hide LeeTrama, CuantaCarga, AnchoLongitud;
    LargoDeTrama(s);
    var a := AnchoLongitud(s[1]);
    l := s[2..2 + a];
    var i: nat := 2 + a + if s[1] >= 128 then 4 else 0;
    var j := i + CuantaCarga(s[1], l);
    m, c, cola := s[2 + a..i], s[i..j], s[j..];
    Cortes(s, 2 + a, i, j);
  }

  /** Bytes that come later change neither the first frame nor what follows it. */
  lemma TramaFirme(s: Bytes, mas: Bytes)
    requires LeeTrama(s).Some?
    ensures LeeTrama(s + mas) == Some((LeeTrama(s).value.0, LeeTrama(s).value.1 + mas))
  {
    hide LeeTrama, AnchoLongitud, CuantaCarga, Enmascara;
    var l, m, c, cola := EnPartes(s);
    AsociaCinco([s[0], s[1]], l, m, c, cola);
    AsociaCinco([s[0], s[1]], l, m, c, cola + mas);
    Asocia([s[0], s[1]] + l + m + c, cola, mas);
    TramaEntera(s[0], s[1], l, m, c, cola);
    TramaEntera(s[0], s[1], l, m, c, cola + mas);
  }

  lemma {:induction false} EnterasSuma(a: Bytes, b: Bytes)
    requires Enteras(a)
    ensures Enteras(a + b) <==> Enteras(b)
    decreases |a|
  {
    hide LeeTrama;
    if a == [] {
      assert a + b == b;
    } else {
      TramaFirme(a, b);
      EnterasSuma(LeeTrama(a).value.1, b);
    }
  }

  lemma NadaTras(a: Bytes, b: Bytes)
    requires b != []
    ensures LeeTrama(a).Some? ==> LeeTrama(a + b).Some? && LeeTrama(a + b).value.1 != []
  {
    hide LeeTrama;
    if LeeTrama(a).Some? {
      TramaFirme(a, b);
      assert |LeeTrama(a).value.1 + b| > 0;
    }
  }

  /** A frame is whole, and half of one is not. */
  lemma UnaEntera(t: Trama, k: nat)
    requires t.Valid() && k <= |Codifica(t)|
    ensures Enteras(Codifica(t)[..k]) <==> k == 0 || k == |Codifica(t)|
  {
    hide LeeTrama, Codifica;
    var f := Codifica(t);
    LeeCodifica(t, []);
    assert f + [] == f && f[..|f|] == f;
    assert Enteras([]);
    if 0 < k < |f| {
      assert f[..k] + f[k..] == f;
      NadaTras(f[..k], f[k..]);
    }
  }

  /** Frames and then a frame sent as far as the peer takes it. */
  lemma EnterasTras(a: Bytes, t: Trama, k: nat)
    requires Enteras(a) && t.Valid() && k <= |Codifica(t)|
    ensures Enteras(a + Codifica(t)[..k]) <==> k == 0 || k == |Codifica(t)|
  {
    EnterasSuma(a, Codifica(t)[..k]);
    UnaEntera(t, k);
  }

  /** After `antes` a pong was cut short, perhaps before its first byte. */
  predicate EnUnPong(antes: Bytes, ahora: Bytes) { exists k | 0 <= k < |PONG| :: ahora == antes + PONG[..k] }

  lemma MedioPong(antes: Bytes, k: nat)
    requires k < |PONG|
    ensures EnUnPong(antes, antes + PONG[..k]) && (k == 0 ==> antes + PONG[..k] == antes)
  {
  }

  lemma Detras(a: Bytes, b: Bytes, n: nat)
    requires n <= |a|
    ensures (a + b)[n..] == a[n..] + b
  {
  }

  lemma PongEntero(a: Bytes)
    requires Enteras(a)
    ensures Enteras(a + PONG)
  {
    hide LeeTrama;
    EnterasSuma(a, PONG);
    PongSeLee([]);
    assert PONG + [] == PONG;
  }

  // -- The client -----------------------------------------------------------------------------------------------

  class WebSocket {
    const s: Socket
    var resto: Bytes
    ghost const saludo: nat
    ghost var total: Bytes
    ghost var vistos: seq<Bytes>

    /** Everything still to be read: the carry-over and then what the socket will give. */
    ghost function Flujo(): Bytes
      reads this, s
    {
      resto + s.pendiente
    }

    /** The next byte to read is the first byte of a message. */
    ghost predicate EnFrontera()
      reads this, s
    {
      Leido(total, vistos, Flujo())
    }

    /** Whatever was sent since the greeting is whole frames. */
    ghost predicate SoloEnteras()
      reads this, s
    {
      saludo <= |s.enviado| && Enteras(s.enviado[saludo..])
    }

    constructor Tras(s: Socket, resto: Bytes)
      ensures this.s == s && this.resto == resto && Flujo() == total && vistos == [] && SoloEnteras()
    {
      this.s, this.resto, this.saludo := s, resto, |s.enviado|;
      total, vistos := resto + s.pendiente, [];
    }

    /** `_leer`: `n` bytes, first those of the carry-over. A timeout loses what was read. */
    method Leer(n: nat) returns (r: Result<Bytes, Fallo>)
      modifies this`resto, s`pendiente
      ensures r.Ok? ==> |r.value| == n && old(Flujo()) == r.value + Flujo()
      ensures r.Err? ==> r.error == Tiempo || (r.error == SinNavegador && |old(Flujo())| < n && Flujo() == [])
    {
      var datos := if n <= |resto| then resto[..n] else resto;
      resto := if n <= |resto| then resto[n..] else [];
      while |datos| < n
        invariant |datos| <= n && (|datos| < n ==> resto == [])
        invariant old(Flujo()) == datos + Flujo()
        decreases n - |datos|
      {
        var pedir := if n - |datos| < 65536 then n - |datos| else 65536;
        var trozo := s.Recv(pedir);
        match trozo {
          case SeAcabo => return Err(Tiempo);
          case Cerrado => return Err(SinNavegador);
          case Llega(b) =>
            datos := datos + b;
        }
      }
      return Ok(datos);
    }

    /** `bytes(b ^ mascara[i % 4] for ...)`. */
    static method AplicaMascara(carga: Bytes, m: Mascara) returns (r: Bytes)
      ensures r == Enmascara(carga, m)
    {
      r := [];
      for i := 0 to |carga|
        invariant r + EnmascaraDesde(carga[i..], m, i) == Enmascara(carga, m)
      {
        assert carga[i..][1..] == carga[i + 1..];
        ghost var antes := r;
        r := r + [Xor(carga[i], m[i % 4])];
        assert r + EnmascaraDesde(carga[i + 1..], m, i + 1) == antes + EnmascaraDesde(carga[i..], m, i);
      }
      assert carga[|carga|..] == [];
    }

    /** `enviar`: one masked text frame, or as much of it as the peer takes. A payload that does not fit
        the length field sends nothing. */
    method Enviar(carga: Bytes, mascara: Mascara) returns (r: Result<(), Fallo>)
      modifies s`enviado, s`hueco
      ensures |carga| < DOS_A_LA_64 ==>
                var f := Codifica(TramaDeTexto(carga, mascara));
                if |f| <= old(s.hueco) then r == Ok(()) && s.enviado == old(s.enviado) + f
                else r == Err(Tiempo) && s.enviado == old(s.enviado) + f[..old(s.hueco)]
      ensures |carga| >= DOS_A_LA_64 ==> r == Err(Otra) && s.enviado == old(s.enviado)
      ensures EnFrontera() == old(EnFrontera())
      ensures old(SoloEnteras()) ==> (SoloEnteras() <==> r != Err(Tiempo) || old(s.hueco) == 0)
    {
      hide Enteras, LeeTrama;
      var cabeza: Bytes := [0x81];
      var n := |carga|;
      if n < 126 {
        cabeza := cabeza + [0x80 + n];
      } else if n < 65536 {
        cabeza := cabeza + [0x80 + 126];
        cabeza := cabeza + BE(n, 2);
      } else {
        if n >= DOS_A_LA_64 {
          return Err(Otra);
        }
        cabeza := cabeza + [0x80 + 127];
        cabeza := cabeza + BE(n, 8);
      }
      ghost var t := TramaDeTexto(carga, mascara);
      assert cabeza == [0x81, Segundo(t)] + Longitud(n, t.forma);
      cabeza := cabeza + mascara;
      var enmascarada := AplicaMascara(carga, mascara);
      ghost var f := Codifica(t);
      assert cabeza + enmascarada == f;
      if old(SoloEnteras()) {
        ghost var k := if |f| <= s.hueco then |f| else s.hueco;
        EnterasTras(s.enviado[saludo..], t, k);
        assert f[..|f|] == f;
        assert (s.enviado + f[..k])[saludo..] == s.enviado[saludo..] + f[..k];
      }
      r := s.SendAll(cabeza + enmascarada);
    }

    /** The first five reads of `recibir`: one frame, or the reason why there is none. */
    method UnaTrama() returns (r: Result<Leida, Fallo>)
      modifies this`resto, s`pendiente
      ensures r.Ok? ==> LeeTrama(old(Flujo())) == Some((r.value, Flujo()))
      ensures r.Err? ==> r.error == Tiempo || (r.error == SinNavegador && LeeTrama(old(Flujo())) == None)
    {
      hide Enmascara, DeBE, LeeTrama;
      ghost var f0 := Flujo();
      var dos := Leer(2);
      if dos.Err? {
        TramaSinPrincipio(f0);
        return Err(dos.error);
      }
      var b1, b2 := dos.value[0], dos.value[1];
      ghost var f1 := Flujo();
      assert f0 == [b1, b2] + f1;
      var n: nat := b2 % 128;
      ghost var l: Bytes := [];
      if n == 126 || n == 127 {
        var ancho := Leer(if n == 126 then 2 else 8);
        if ancho.Err? {
          TramaSinLongitud(b1, b2, f1);
          return Err(ancho.error);
        }
        l := ancho.value;
        n := DeBE(ancho.value);
      }
      ghost var f2 := Flujo();
      assert f0 == [b1, b2] + (l + f2);
      var m: Bytes := [];
      if b2 >= 128 {
        var mascara := Leer(4);
        if mascara.Err? {
          TramaSinCarga(b1, b2, l, f2);
          return Err(mascara.error);
        }
        m := mascara.value;
      }
      ghost var f3 := Flujo();
      assert f2 == m + f3;
      var crudos := Leer(n);
      if crudos.Err? {
        TramaSinCarga(b1, b2, l, f2);
        return Err(crudos.error);
      }
      var carga := crudos.value;
      assert f0 == [b1, b2] + (l + (m + (crudos.value + Flujo())));
      TramaEntera(b1, b2, l, m, crudos.value, Flujo());
      if b2 >= 128 {
        carga := AplicaMascara(crudos.value, m);
      }
      return Ok(Leida(b1 >= 128, b1 % 16, carga));
    }

    /** `recibir`: the first message of the stream, with one pong sent for each ping that came before its
        end; or a close, or a stream that ends in mid-message; or a timeout. */
    method Recibir() returns (r: Result<Bytes, Fallo>, ghost pings: nat)
      modifies this`resto, this`vistos, s`pendiente, s`enviado, s`hueco
      ensures r != Err(Tiempo) ==> s.enviado == old(s.enviado) + Pongs(pings)
      ensures r == Err(Tiempo) ==> EnUnPong(old(s.enviado) + Pongs(pings), s.enviado)
      ensures old(SoloEnteras()) && r != Err(Tiempo) ==> SoloEnteras()
      ensures r.Ok? ==> Tramas.Recibir(old(Flujo()), []) == Mensaje(r.value, pings, Flujo())
      ensures r == Err(SinNavegador) ==>
                && !Tramas.Recibir(old(Flujo()), []).Mensaje?
                && Tramas.Recibir(old(Flujo()), []).pongs == pings
      ensures r.Err? ==> r.error == SinNavegador || r.error == Tiempo
      ensures r.Ok? && old(EnFrontera()) ==> vistos == old(vistos) + [r.value] && EnFrontera()
      ensures r.Err? ==> vistos == old(vistos)
      ensures r.Ok? ==> |Flujo()| < |old(Flujo())|
    {
      hide LeeTrama, Leido, Enteras, EnUnPong;
      var mensaje: Bytes := [];
      pings := 0;
      ghost var f0 := Flujo();
      assert Pongs(0) == [];
      while true
        invariant s.enviado == old(s.enviado) + Pongs(pings)
        invariant old(SoloEnteras()) ==> SoloEnteras()
        invariant vistos == old(vistos)
        invariant Tramas.Recibir(f0, []) == Tramas.Recibir(Flujo(), mensaje).MasPongs(pings)
        invariant |Flujo()| <= |f0|
        decreases |Flujo()|
      {
        ghost var antes := Flujo();
        var t := UnaTrama();
        if t.Err? {
          MedioPong(s.enviado, 0);
          return Err(t.error), pings;
        }
        assert |Flujo()| < |antes|;
        if t.value.opcode == 8 {
          return Err(SinNavegador), pings;
        }
        if t.value.opcode == 9 {
          ghost var e0 := s.enviado;
          var pong := s.SendAll(PONG);
          if pong.Err? {
            MedioPong(e0, |s.enviado| - |e0|);
            return Err(Tiempo), pings;
          }
          PongAlFinal(pings);
          if old(SoloEnteras()) {
            PongEntero(e0[saludo..]);
            Detras(e0, PONG, saludo);
          }
          pings := pings + 1;
          continue;
        }
        if t.value.opcode == 0 || t.value.opcode == 1 {
          mensaje := mensaje + t.value.carga;
          if t.value.fin {
            if old(EnFrontera()) {
              LeidoUnoMas(total, vistos, f0);
            }
            vistos := vistos + [mensaje];
            return Ok(mensaje), pings;
          }
        }
      }
    }

    method Cerrar()
      modifies s`cerrado
      ensures s.cerrado
    {
      s.cerrado := true;
    }
  }

  /** `__init__`: the request, the greeting up to the first blank line, and the carry-over. However the
      greeting and the frames after it are cut into pieces, what is left to read is what follows it. */
  method Conecta(s: Socket, peticion: Bytes) returns (r: Result<WebSocket, Fallo>)
    modifies s
    ensures s.cerrado == old(s.cerrado)
    ensures s.enviado == old(s.enviado) + if |peticion| <= old(s.hueco) then peticion else peticion[..old(s.hueco)]
    ensures |peticion| > old(s.hueco) ==> r == Err(Tiempo)
    ensures match r
            case Ok(w) => fresh(w) && w.s == s && w.vistos == [] && w.total == w.Flujo() && w.SoloEnteras()
                          && Saludo(old(s.pendiente)) == Some(w.Flujo())
            case Err(e) => e == Tiempo || (e == SinNavegador && Saludo(old(s.pendiente)) == None)
  {
    hide Corte;
    var pedido := s.SendAll(peticion);
    if pedido.Err? {
      return Err(Tiempo);
    }
    var cabecera: Bytes := [];
    var dentro := TieneCorte(cabecera);
    while !dentro
      invariant dentro <==> Corte(cabecera).Some?
      invariant old(s.pendiente) == cabecera + s.pendiente
      invariant s.enviado == old(s.enviado) + peticion && s.cerrado == old(s.cerrado)
      decreases |s.pendiente|, !dentro
    {
      var trozo := s.Recv(1024);
      match trozo {
        case SeAcabo => return Err(Tiempo);
        case Cerrado =>
          assert old(s.pendiente) == cabecera;
          return Err(SinNavegador);
        case Llega(b) =>
          cabecera := cabecera + b;
          dentro := TieneCorte(cabecera);
      }
    }
    SaludoFirme(cabecera, s.pendiente);
    if !(ESTADO <= cabecera) {
      return Err(SinNavegador);
    }
    var w := new WebSocket.Tras(s, Corte(cabecera).value);
    return Ok(w);
  }

  /** `b"\r\n\r\n" in cabecera`. */
  method TieneCorte(s: Bytes) returns (hay: bool)
    ensures hay == Corte(s).Some?
  {
    var i := 0;
    while i + 4 <= |s|
      invariant 0 <= i <= |s|
      invariant Corte(s) == Corte(s[i..])
    {
      assert s[i..][..4] == s[i..i + 4] && s[i..][1..] == s[i + 1..];
      if s[i..i + 4] == FIN_CABECERA {
        return true;
      }
      i := i + 1;
    }
    return false;
  }
}
