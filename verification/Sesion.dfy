/** The browser session of `navegador.py` (lines 165-315): orders with growing ids over one connection
    that is dropped as soon as a read may have been cut short. */
module Sesion {
  import opened Octetos
  import opened Textos
  import opened Tramas
  import opened Enchufe

  // -- What the program looks at in a JSON message -----------------------------------------------------

  datatype ErrorDe = SinError | ConError | ErrorRaro

  datatype Evento = NoEsCiclo | CicloRaro | Ciclo(nombre: string, loader: Option<string>)

  datatype Lamina = NoEsLamina | Lamina(truncada: bool, texto: Bytes)

  datatype Resultado = Raro | Resultado(errorText: bool, loader: Option<string>, excepcion: bool, valor: Lamina)

  datatype Json =
    | NoEsJson
    | Nulo
    | NoObjeto
    | Objeto(id: Option<int>, error: ErrorDe, resultado: Resultado, evento: Evento)

  datatype Orden = Orden(metodo: string, parametro: string)

  /** What opening a tab runs into: no answer, an answer that is not understood, or a connection with all
      that the browser will say on it and how much it takes before a send runs out of time. */
  datatype Apertura =
    | NoContesta
    | RespuestaRara
    | Conexion(flujo: Bytes, hueco: nat, peticion: Bytes, id: Option<string>)

  /** JSON in both directions. */
  datatype Idioma = Idioma(lee: Bytes -> Json, escribe: (nat, Orden) -> Bytes)

  /** Ids strictly grow and stay under `tope`. */
  predicate Crecen(ids: seq<nat>, tope: nat) {
    if ids == [] then true
    else ids[|ids| - 1] < tope && Crecen(ids[..|ids| - 1], ids[|ids| - 1])
  }

  lemma {:induction false} CrecenMas(ids: seq<nat>, tope: nat, mas: nat)
    requires Crecen(ids, tope) && tope <= mas
    ensures Crecen(ids, mas)
  {
  }

  lemma {:induction false} CrecenUno(ids: seq<nat>, id: nat)
    requires Crecen(ids, id)
    ensures Crecen(ids + [id], id + 1)
  {
    assert (ids + [id])[..|ids|] == ids;
  }

  /** No id of a growing list comes twice. */
  lemma {:induction false} CrecenDistintos(ids: seq<nat>, tope: nat, i: nat, j: nat)
    requires Crecen(ids, tope) && i < j < |ids|
    ensures ids[i] < ids[j] < tope
  {
    if j == |ids| - 1 {
      CrecenBajo(ids[..j], ids[j], i);
    } else {
      CrecenDistintos(ids[..|ids| - 1], ids[|ids| - 1], i, j);
    }
  }

  lemma {:induction false} CrecenBajo(ids: seq<nat>, tope: nat, i: nat)
    requires Crecen(ids, tope) && i < |ids|
    ensures ids[i] < tope
  {
    if i < |ids| - 1 {
      CrecenBajo(ids[..|ids| - 1], ids[|ids| - 1], i);
    }
  }

  predicate TodasEn(a: seq<nat>, b: seq<nat>) { forall x <- a :: x in b }

  lemma TodasEnMas(a: seq<nat>, b: seq<nat>, id: nat)
    requires TodasEn(a, b)
    ensures TodasEn(a, b + [id])
  {
  }

  lemma TodasEnAmbas(a: seq<nat>, b: seq<nat>, id: nat)
    requires TodasEn(a, b)
    ensures TodasEn(a + [id], b + [id])
  {
  }

  /** The message carries the answer to order `yo`. */
  predicate Contesta(idioma: Idioma, m: Bytes, yo: nat) {
    idioma.lee(m).Objeto? && idioma.lee(m).id == Some(yo)
  }

  /** What answers an order answers none of the orders sent before it. */
  lemma NoEsAnterior(idioma: Idioma, m: Bytes, yo: nat, anteriores: seq<nat>)
    requires Contesta(idioma, m, yo) && Crecen(anteriores, yo)
    ensures forall previa <- anteriores :: !Contesta(idioma, m, previa)
  {
    forall i | 0 <= i < |anteriores|
      ensures anteriores[i] != yo
    {
      CrecenBajo(anteriores, yo, i);
    }
  }

  function Navega(url: string): Orden { Orden("Page.navigate", url) }

  /** The peer takes the beginning of the frame of an order and not the rest. */
  predicate Cortada(carga: Bytes, m: Mascara, hueco: nat) {
    |carga| < DOS_A_LA_64 && 0 < hueco < |Codifica(TramaDeTexto(carga, m))|
  }

  // -- The session ------------------------------------------------------------------------------------------

  class Navegador {
    const idioma: Idioma
    var siguiente: nat
    var ws: WebSocket?
    var pestana: Option<string>

    /** The ids of the orders sent since the session began, and those whose answer was accepted. */
    ghost var ordenes: seq<nat>
    ghost var aceptadas: seq<nat>

    ghost function Huella(): set<object>
      reads this
    {
      {this} + if ws == null then {} else {ws, ws.s}
    }

    /** How much more the browser takes before a send runs out of time. */
    ghost function HuecoDe(): nat
      reads this, Huella()
    {
      if ws == null then 0 else ws.s.hueco
    }

    /** What every call keeps. A connection that is kept is open and its next byte starts a message. */
    ghost predicate Valid()
      reads this, Huella()
    {
      && Crecen(ordenes, siguiente) && Crecen(aceptadas, siguiente) && TodasEn(aceptadas, ordenes)
      && (ws != null ==> ws.EnFrontera() && !ws.s.cerrado)
      && (ws == null ==> pestana == None)
    }

    constructor (idioma: Idioma)
      ensures Valid() && ws == null && siguiente == 1 && ordenes == [] && aceptadas == []
      ensures this.idioma == idioma
    {
      this.idioma := idioma;
      siguiente, ws, pestana, ordenes, aceptadas := 1, null, None, [], [];
    }

    /** `_mensaje`: the next message, or `Nulo` when time ran out (or when it is the JSON `null`). `visto`
        is the message that was read whole; with it the connection stays at the start of a message. */
    method Mensaje(w: WebSocket) returns (r: Result<Json, Fallo>, ghost visto: Option<Bytes>)
      requires w.EnFrontera()
      modifies w, w.s
      ensures w.s.cerrado == old(w.s.cerrado)
      ensures match visto
              case Some(m) =>
                && w.EnFrontera() && |w.Flujo()| < |old(w.Flujo())| && w.vistos == old(w.vistos) + [m]
                && r == if idioma.lee(m).NoEsJson? then Err(Otra) else Ok(idioma.lee(m))
              case None => r == Ok(Nulo) || r == Err(SinNavegador)
      ensures visto.Some? && old(w.SoloEnteras()) ==> w.SoloEnteras()
    {
      hide Leido, Enteras, EnUnPong;
      var m;
      ghost var pings;
      m, pings := w.Recibir();
      if m == Err(Tiempo) {
        return Ok(Nulo), None;
      }
      if m.Err? {
        return Err(m.error), None;
      }
      if idioma.lee(m.value).NoEsJson? {
        return Err(Otra), Some(m.value);
      }
      return Ok(idioma.lee(m.value)), Some(m.value);
    }

    /** `_orden`: sends one order under a new id and waits for the answer with that id. It accepts the
        first message with that id that comes after the order was sent. */
    method Ordena(w: WebSocket, orden: Orden, mascara: Mascara) returns (r: Result<Resultado, Fallo>)
      requires w.EnFrontera()
      requires Crecen(ordenes, siguiente) && Crecen(aceptadas, siguiente) && TodasEn(aceptadas, ordenes)
      modifies `siguiente, `ordenes, `aceptadas, w, w.s
      ensures siguiente == old(siguiente) + 1 && ordenes == old(ordenes) + [old(siguiente)]
      ensures Crecen(ordenes, siguiente) && Crecen(aceptadas, siguiente) && TodasEn(aceptadas, ordenes)
      ensures w.s.cerrado == old(w.s.cerrado)
      ensures r != Err(SinNavegador) ==> w.EnFrontera()
      ensures r.Ok? && old(w.SoloEnteras()) ==> w.SoloEnteras()
      ensures Cortada(idioma.escribe(old(siguiente), orden), mascara, old(w.s.hueco)) ==>
                r == Err(Otra) && (old(w.SoloEnteras()) ==> !w.SoloEnteras())
      ensures r.Ok? ==> aceptadas == old(aceptadas) + [old(siguiente)]
      ensures r.Err? ==> aceptadas == old(aceptadas)
      ensures r.Err? ==> r.error != Tiempo
      ensures r.Ok? ==>
                && |old(w.vistos)| < |w.vistos| && old(w.vistos) <= w.vistos
                && Contesta(idioma, w.vistos[|w.vistos| - 1], old(siguiente))
                && (forall k | |old(w.vistos)| <= k < |w.vistos| - 1 :: !Contesta(idioma, w.vistos[k], old(siguiente)))
                && idioma.lee(w.vistos[|w.vistos| - 1]).resultado == r.value
    {
      hide Leido, Crecen, TodasEn, Enteras, Codifica, WebSocket.SoloEnteras, WebSocket.EnFrontera;
      var yo := siguiente;
      siguiente := siguiente + 1;
      ordenes := ordenes + [yo];
      CrecenUno(old(ordenes), yo);
      TodasEnMas(aceptadas, old(ordenes), yo);
      CrecenMas(aceptadas, yo, yo + 1);
      var envio := w.Enviar(idioma.escribe(yo, orden), mascara);
      if envio.Err? {
        return Err(Otra);
      }
      while *
        invariant w.EnFrontera()
        invariant w.s.cerrado == old(w.s.cerrado)
        invariant old(w.SoloEnteras()) ==> w.SoloEnteras()
        invariant siguiente == yo + 1 && ordenes == old(ordenes) + [yo] && aceptadas == old(aceptadas)
        invariant old(w.vistos) <= w.vistos
        invariant forall k | |old(w.vistos)| <= k < |w.vistos| :: !Contesta(idioma, w.vistos[k], yo)
        decreases |w.Flujo()|
      {
        var m;
        ghost var visto;
        m, visto := Mensaje(w);
        if m.Err? {
          return Err(m.error);
        }
        if m.value.Nulo? {
          break;
        }
        if !m.value.Objeto? {
          return Err(Otra);
        }
        if m.value.id == Some(yo) {
          match m.value.error {
            case ConError => return Err(SinNavegador);
            case ErrorRaro => return Err(Otra);
            case SinError =>
              aceptadas := aceptadas + [yo];
              CrecenUno(old(aceptadas), yo);
              TodasEnAmbas(old(aceptadas), old(ordenes), yo);
              return Ok(m.value.resultado);
          }
        }
      }
      return Err(SinNavegador);
    }

    /** `_espera_carga`: until the `load` event of that very navigation. */
    method EsperaCarga(w: WebSocket, loader: Option<string>) returns (r: Result<(), Fallo>)
      requires w.EnFrontera()
      modifies w, w.s
      ensures w.s.cerrado == old(w.s.cerrado)
      ensures r != Err(SinNavegador) ==> w.EnFrontera()
      ensures r.Err? ==> r.error != Tiempo
      ensures r.Ok? && old(w.SoloEnteras()) ==> w.SoloEnteras()
      ensures r.Ok? ==>
                && |old(w.vistos)| < |w.vistos| && old(w.vistos) <= w.vistos
                && idioma.lee(w.vistos[|w.vistos| - 1]).Objeto?
                && idioma.lee(w.vistos[|w.vistos| - 1]).evento == Ciclo("load", loader)
    {
      hide Leido, Enteras;
      while *
        invariant w.EnFrontera()
        invariant old(w.SoloEnteras()) ==> w.SoloEnteras()
        invariant w.s.cerrado == old(w.s.cerrado)
        invariant old(w.vistos) <= w.vistos
        decreases |w.Flujo()|
      {
        var m;
        ghost var visto;
        m, visto := Mensaje(w);
        if m.Err? {
          return Err(m.error);
        }
        if m.value.Nulo? {
          break;
        }
        if !m.value.Objeto? {
          return Err(Otra);
        }
        match m.value.evento {
          case NoEsCiclo =>
          case CicloRaro => return Err(Otra);
          case Ciclo(nombre, l) =>
            if nombre == "load" && l == loader {
              return Ok(());
            }
        }
      }
      return Err(SinNavegador);
    }

    /** `_abrir_pestana`: a new connection and its three orders. A connection whose orders fail is closed
        and forgotten. */
    method AbrirPestana(ap: Apertura, azar: nat -> Mascara) returns (r: Result<(), Fallo>)
      requires Valid() && ws == null
      modifies this
      ensures Valid() && fresh(Huella() - {this})
      ensures old(ordenes) <= ordenes && old(aceptadas) <= aceptadas
      ensures r.Ok? ==> ws != null
      ensures r == Err(SinNavegador) || r == Err(Tiempo) ==> ws == null
      ensures ws != null ==> |ordenes| == |old(ordenes)| + 3 && |aceptadas| == |old(aceptadas)| + 3
      ensures ws != null ==> ws.SoloEnteras()
    {
      hide Leido, Crecen, TodasEn, Enteras, Cortada, WebSocket.SoloEnteras, WebSocket.EnFrontera;
      match ap {
        case NoContesta => return Err(SinNavegador);
        case RespuestaRara => return Err(Otra);
        case Conexion(flujo, hueco, peticion, id) =>
          var s := new Socket(flujo, hueco);
          var conexion := Conecta(s, peticion);
          if conexion.Err? {
            return Err(conexion.error);
          }
          var w := conexion.value;
          RecienConectado(w);
          var ordenesFijas := [Orden("Page.enable", ""), Orden("Page.setLifecycleEventsEnabled", "enabled"),
                               Orden("Emulation.setDeviceMetricsOverride", "640x800")];
          for i := 0 to |ordenesFijas|
            invariant ws == null && pestana == None && fresh(w) && fresh(w.s)
            invariant w.EnFrontera() && !w.s.cerrado && w.SoloEnteras()
            invariant Crecen(ordenes, siguiente) && Crecen(aceptadas, siguiente) && TodasEn(aceptadas, ordenes)
            invariant old(ordenes) <= ordenes && old(aceptadas) <= aceptadas
            invariant |ordenes| == |old(ordenes)| + i && |aceptadas| == |old(aceptadas)| + i
          {
            var hecho := Ordena(w, ordenesFijas[i], azar(i));
            if hecho.Err? {
              if hecho.error == SinNavegador {
                w.Cerrar();
              }
              return Err(hecho.error);
            }
          }
          ws := w;
          if id.None? {
            return Err(Otra);
          }
          pestana := id;
          return Ok(());
      }
    }

    /** `_tirar_pestana`. */
    method TirarPestana()
      modifies this`ws, this`pestana, if ws == null then {} else {ws.s}
      ensures ws == null && pestana == None
      ensures old(ws) != null ==> old(ws).s.cerrado
    {
      if ws != null {
        ws.Cerrar();
        ws := null;
      }
      pestana := None;
    }

    /** `lamina_de`, with the program's own failure still not caught. */
    method Intenta(url: string, ap: Apertura, azar: nat -> Mascara, hitosBien: bool) returns (r: Result<Bytes, Fallo>)
      requires Valid()
      modifies Huella()
      ensures Crecen(ordenes, siguiente) && Crecen(aceptadas, siguiente) && TodasEn(aceptadas, ordenes)
      ensures ws == null ==> pestana == None
      ensures ws != null ==> !ws.s.cerrado
      ensures r != Err(SinNavegador) ==> Valid()
      ensures fresh(Huella() - old(Huella()))
      ensures old(ws) != null ==> ws == old(ws)
      ensures old(ordenes) <= ordenes && old(aceptadas) <= aceptadas
      ensures r.Ok? ==> ws != null
      ensures r == Err(Tiempo) ==> ws == null
      ensures r.Ok? && old(ws != null ==> ws.SoloEnteras()) ==> ws.SoloEnteras()
      ensures old(ws) != null && Cortada(idioma.escribe(old(siguiente), Navega(url)), azar(3), old(HuecoDe())) ==>
                r == Err(Otra) && (old(ws.SoloEnteras()) ==> !ws.SoloEnteras())
    {
      hide Leido, Crecen, TodasEn, Enteras, Cortada, WebSocket.SoloEnteras, WebSocket.EnFrontera;
      if ws == null {
        var abierta := AbrirPestana(ap, azar);
        if abierta.Err? {
          return Err(abierta.error);
        }
      }
      var w := ws;
      var navega := Ordena(w, Navega(url), azar(3));
      if navega.Err? {
        return Err(navega.error);
      }
      if navega.value.Raro? {
        return Err(Otra);
      }
      if navega.value.errorText {
        return Err(SinNavegador);
      }
      var carga := EsperaCarga(w, navega.value.loader);
      if carga.Err? {
        return Err(carga.error);
      }
      var tiempos := Ordena(w, Orden("Runtime.evaluate", "hitos"), azar(4));
      if tiempos.Err? {
        return Err(tiempos.error);
      }
      if !hitosBien {
        return Err(Otra);
      }
      var evalua := Ordena(w, Orden("Runtime.evaluate", "lamina"), azar(5));
      if evalua.Err? {
        return Err(evalua.error);
      }
      if evalua.value.Raro? {
        return Err(Otra);
      }
      if evalua.value.excepcion {
        return Err(SinNavegador);
      }
      if evalua.value.valor.NoEsLamina? {
        return Err(Otra);
      }
      if evalua.value.valor.truncada {
        return Err(SinNavegador);
      }
      return Ok(evalua.value.valor.texto);
    }

    /** `lamina_de`. Whatever happened on the wire, what is kept is a connection at the start of a message
        or no connection at all; the program's own failure closes it. What was sent on a kept connection
        is whole frames, unless the call ended with some other error: a send that runs out of time in the
        middle of a frame leaves the connection kept with half of it sent. */
    method LaminaDe(url: string, ap: Apertura, azar: nat -> Mascara, hitosBien: bool) returns (r: Result<Bytes, Fallo>)
      requires Valid()
      modifies Huella()
      ensures Valid() && fresh(Huella() - old(Huella()))
      ensures old(ordenes) <= ordenes && old(aceptadas) <= aceptadas
      ensures r == Err(SinNavegador) ==> ws == null && (old(ws) != null ==> old(ws).s.cerrado)
      ensures r.Ok? ==> ws != null
      ensures ws != null && r != Err(Otra) && old(ws != null ==> ws.SoloEnteras()) ==> ws.SoloEnteras()
      ensures old(ws) != null && Cortada(idioma.escribe(old(siguiente), Navega(url)), azar(3), old(HuecoDe())) ==>
                r == Err(Otra) && ws == old(ws) && (old(ws.SoloEnteras()) ==> !ws.SoloEnteras())
    {
      hide Leido, Crecen, TodasEn, Enteras;
      r := Intenta(url, ap, azar, hitosBien);
      assert r.Err? ==> r.error.SinNavegador? || r.error.Tiempo? || r.error.Otra?;
      if r == Err(SinNavegador) {
        TirarPestana();
      }
    }
  }

  lemma RecienConectado(w: WebSocket)
    requires w.vistos == [] && w.total == w.Flujo()
    ensures w.EnFrontera()
  {
  }

  /** One call of the session and what the world answers to it. */
  datatype Visita = Visita(url: string, ap: Apertura, azar: nat -> Mascara, hitosBien: bool)

  /** Any run of calls, with timeouts and closes at any byte: each call starts with a connection at the
      start of a message or with none, the orders of the whole run carry growing ids, and the answers
      accepted are those of some of those orders, each at most once and in their order. */
  method Corrida(idioma: Idioma, visitas: seq<Visita>) returns (laminas: seq<Result<Bytes, Fallo>>, n: Navegador)
    ensures |laminas| == |visitas|
    ensures fresh(n) && n.Valid()
    ensures Crecen(n.ordenes, n.siguiente) && Crecen(n.aceptadas, n.siguiente) && TodasEn(n.aceptadas, n.ordenes)
  {
    n := new Navegador(idioma);
    laminas := [];
    for i := 0 to |visitas|
      invariant |laminas| == i
      invariant n.Valid() && fresh(n.Huella())
    {
      var v := visitas[i];
      var r := n.LaminaDe(v.url, v.ap, v.azar, v.hitosBien);
      laminas := laminas + [r];
    }
  }
}
