# Proofs about the BMO-X tools and its Ring 3 runtime

This project models six parts of the repository in Dafny and proves what they promise. Names follow the
Spanish of the sources.

- **LAMINA** (`LaminaJs`, `LaminaPinta`, `LaminaEmisor`, `LaminaJuez`, `LaminaServir`): the walker of
  `lamina.js` that prints a page as lines of boxes and strips of text, the independent judge of
  `lamina_juez.py` that parses those bytes again, and the two ways `antena.py` sends them. The tree, the
  rectangles, the rows and the styles are arbitrary. Page width is 1 to 1280.
- **The comment sweeper** (`Escaner`, `EscanerEnTexto`, `Barrido`, `Estable`, `EstableBloques`, `EstableCobol`): the
  tokenizers of `ascii_sweep.py`, the rewriting of comments and the guarantee that code is untouched. The
  replacement table and the repair of one run are arbitrary, with the facts stated in `Barrido.Reglas.Valid`.
- **The browser client** (`Tramas`, `Enchufe`, `Sesion`): WebSocket frames and messages (RFC 6455, sections
  5.2 to 5.5), the handshake with its carry-over, and the session that sends orders with growing ids. The
  socket gives its bytes in any pieces, may time out at any byte in both directions and may close at any byte. JSON, the clock,
  the masks and the opening of tabs are arbitrary inputs.
- **Files behind the seven-byte gate** (`Puerta`, `Paquete`, `PaqueteFormato`, `Renglones`): the kernel's
  slot and lines, `archivo.rs`, `paquete.rs` and the word transports of `estratos.rs`.
- **Layers and families** (`Usos`, `Capas`): the parser of `use` trees and the judges of `capas.py`.
- **The size ratchet** (`Censo`, `CensoTexto`, `CensoHistoria`): the verdict, the seal and the text of the
  baseline of `censo_modular.py`, over whole histories in which every run reads the file again.
- **The ANTENA/1 conversation** (`Antena`): what `antena.py` reads, answers and in which order.

`Textos` and `Octetos` hold what the others share: splitting and joining, decimal numbers, blanks, and numbers
as bytes. Where a source loops or changes state, the model is a class or a method with a loop, proved equal to
a function; the lemmas are about that function.

## Where the code and its own words differ

The model follows the code; each case below but the last is proved.

- A page that paints nothing is printed with a blank line and is always refused by the judge
  (`LaminaJuez.LaminaVaciaRechazada`, `LaminaEmisor.LaminaSiempreAceptada`).
- `paquete.rs` says that its numbers mirror `bmo_abi::bef`. They do not: it reads the name at byte 0, the
  offset at 48 and the size at 56 of an entry, and `construir` writes the offset at 0, the size at 8, the
  length of the name at 16 and the name at 17. On images in the layout that `paquete.rs` states everything
  promised holds; from a section that `construir` built with UTF-8 names without NULs it never reads a byte
  (`PaqueteFormato.EmpaquetadoIlegible`, `PaqueteFormato.NombreDeTexto`).
- `estratos.rs` says that a path is cut at its first zero. The kernel cuts each word of eight bytes at its own
  first zero and goes on with the next word (`Renglones.CorteEnElPrimerNul`, `Renglones.CorteFallido`).
- The ratchet says that Ring 0 admits no new long file, whatever the motive. `--check` passes any tree when the
  baseline has no ceiling, which is where sealing a clean tree leads (`Censo.AcotaSii`,
  `CensoHistoria.ArbolLimpioEnTexto`). And a motive of several lines is read line by line by the next run: it
  can add ceilings and exemptions of any path, or leave the file unreadable (`CensoHistoria.MotivoMete`,
  `CensoHistoria.MotivoExime`, `CensoHistoria.MotivoRompe`). `CensoHistoria.Ring0EntraSii` says exactly when a
  Ring 0 path enters; over histories of motives of one line the promise holds.
- `--sellar` says that the raise of a ceiling stays written for ever. It is lost when its line begins with `#`
  (`CensoHistoria.RayaPerdida`); `CensoHistoria.SelloFiel` says exactly when what was sealed is read back.
- `lamina_de` says that what is left in a tab is not used again after a failure. That is so of its own failure
  only: a send that runs out of time keeps the connection with half a frame sent
  (`Sesion.Navegador.LaminaDe`, `Enchufe.EnterasTras`).
- A replacement that forms the mark that ends a comment, or moves the mark of a COBOL line, can make the sweep
  be refused (`EstableBloques.EstrellaRechaza`, `EstableBloques.BarraRechaza`, `EstableCobol.CorridaRechaza`);
  `EstableBloques.AlineadoSii` and `EstableCobol.CobolAlineadoSii` say exactly when the spans survive.
- A text node loses the letters of a row that is broken before any rectangle of it lies on the page, and of one
  that does not fit it (`LaminaPinta.LetraCaida`, `LaminaPinta.TextoConservaSii`).
- The pieces of a strip that does not fit its row are all printed at the same place; nothing is claimed of
  where they appear.

## Model

| member | source | states |
|---|---|---|
| LaminaJs.ZonaExacta | toolchain/tools/antena/lamina.js:107-116 | A rectangle gives a clip exactly when some pixel of it lies on the page after rounding and shifting by the scroll; the clip is inside the page and holds exactly those pixels. |
| LaminaJs.Latin1 | toolchain/tools/antena/lamina.js:120-132 | The loop gives one Latin-1 character per character: itself, the base of its decomposition, or `?`. |
| LaminaJs.IndiceOriginal | toolchain/tools/antena/lamina.js:184-194 | The loop over the original text returns the original position of a collapsed one, for every text and every position. |
| LaminaJs.GuardadasCrecen | toolchain/tools/antena/lamina.js:184-194 | The kept positions grow strictly. |
| LaminaJs.GuardadasSonJuntas | toolchain/tools/antena/lamina.js:151 | The characters at the kept positions, with each blank as a space, are the collapsed text. |
| LaminaJs.OriginalDeshaceJunta | toolchain/tools/antena/lamina.js:184-194 | Position j of the collapsed text goes to the character it stands for (of a run of blanks, the first), strictly growing, and its length goes to the length of the original. |
| LaminaPinta.TrozosConservan | toolchain/tools/antena/lamina.js:138-147 | The pieces of a split strip hold every letter of its text, in order. |
| LaminaPinta.PalabrasPegadas | toolchain/tools/antena/lamina.js:156 | The words that a text node is walked by, put together, are the text. |
| LaminaPinta.FilasConservanSii | toolchain/tools/antena/lamina.js:150-182 | The screen rows of a text node hold every letter of it, in order, none twice, if and only if no row is broken, or left at the end, with letters and no rectangle of it on the page. |
| LaminaPinta.FilasConservan | toolchain/tools/antena/lamina.js:150-182 | So nothing is lost when the first word lies on the page. |
| LaminaPinta.LetraCaida | toolchain/tools/antena/lamina.js:150-182 | Otherwise letters are dropped: of two words on two rows, the first one off the page, only the row of the second goes out. |
| LaminaPinta.TextoConservaSii | toolchain/tools/antena/lamina.js:138-182 | The strips of a text node hold every letter of it, in order, if and only if its rows do and every row with a letter fits the page in height and has room for a letter in its width. |
| LaminaPinta.IdDeBueno | toolchain/tools/antena/lamina.js:217-238 | Ids made from a counter have at most 32 characters of the judge's alphabet, for any number of elements (counters saturate where JavaScript's numbers do). |
| LaminaPinta.PintaBuenos | toolchain/tools/antena/lamina.js:198-244 | For every tree, style and rectangle, what the walk asks for lies inside the page, is not empty and carries a good colour or id. |
| LaminaPinta.TodoBueno | toolchain/tools/antena/lamina.js:247-249 | So does everything asked for in a whole page. |
| LaminaEmisor.Emisor.Poner | toolchain/tools/antena/lamina.js:90-94 | A line is added until there are 4096; after that it is dropped and the page is marked as truncated. |
| LaminaEmisor.Emisor.EmiteTira | toolchain/tools/antena/lamina.js:138-147 | The loop prints the pieces of a strip in order. |
| LaminaEmisor.Emisor.TextoNodo | toolchain/tools/antena/lamina.js:150-182 | The walk of a text node prints exactly its screen rows. |
| LaminaEmisor.Emisor.Imagen | toolchain/tools/antena/lamina.js:217-222 | One image zone under a new id that is in the table of images. |
| LaminaEmisor.Emisor.Campo | toolchain/tools/antena/lamina.js:223-229 | One field zone under a new id, and its value as a strip. |
| LaminaEmisor.Emisor.Enlace | toolchain/tools/antena/lamina.js:231-240 | One zone of the same new id per row of a link. |
| LaminaEmisor.Emisor.Recorrer | toolchain/tools/antena/lamina.js:198-244 | The imperative walk, shared counters and tables included, asks for what the pure walk of the tree paints, in the same order. |
| LaminaEmisor.Emisor.PasadaLatina | toolchain/tools/antena/lamina.js:251-259 | The last pass changes the text of every strip to Latin-1 and nothing else, though it cuts lines at their spaces. |
| LaminaEmisor.LineaLatina | toolchain/tools/antena/lamina.js:253-258 | Cutting a printed line at its spaces finds its text again, whatever the text holds; a zone line is left alone. |
| LaminaEmisor.Lamina | toolchain/tools/antena/lamina.js:78-266 | The whole program: the text is the print of the first 4096 elements painted, in Latin-1; not truncated means that none is missing; every id printed is in its table. |
| LaminaEmisor.LaminaSiempreAceptada | toolchain/tools/antena/lamina.js:78-266 | For every page, the judge accepts what is printed if and only if something was painted, with the same width, height, line count and count of each verb, and no line passes 256 bytes. |
| LaminaEmisor.TextoEnOctetos | toolchain/tools/antena/navegador.py:308-310 | Encoding the lamina in Latin-1 replaces nothing. |
| LaminaJuez.JuezExacto | toolchain/tools/antena/lamina_juez.py:50-89 | A line is accepted if and only if it reads as an element that lies inside the page and is well marked, and then with the verb of that element. |
| LaminaJuez.JuzgarLineas | toolchain/tools/antena/lamina_juez.py:48-89 | The loop over the lines stops at the first bad one and otherwise counts every verb. |
| LaminaJuez.JuzgarBytes | toolchain/tools/antena/lamina_juez.py:37-89 | The whole judge: cutting into lines, header, order, every line and the counts. |
| LaminaJuez.AceptadaDentro | toolchain/tools/antena/lamina_juez.py:37-89 | Of an accepted lamina every line reads as an element inside the page it announces. |
| LaminaJuez.LeeImprime | toolchain/tools/antena/lamina_juez.py:50-89 | Printing an element and reading its fields gives the element back, spaces in its text included. |
| LaminaJuez.LargoImprime | toolchain/tools/antena/lamina.js:138-147 | A printed element that lies inside the page takes at most 256 bytes. |
| LaminaJuez.ImpresoAceptado | toolchain/tools/antena/lamina_juez.py:50-89 | Everything printed from a good element is accepted, with its own verb. |
| LaminaJuez.LaminaAceptada | toolchain/tools/antena/lamina_juez.py:37-89 | A printed page of 1 to 4096 good elements is accepted with its size, its number of lines and one count per element. |
| LaminaJuez.LaminaVaciaRechazada | toolchain/tools/antena/lamina.js:261 | A page without elements is printed with a blank line that the header does not announce: it is always refused. |
| LaminaServir.ServirLamina | toolchain/tools/antena/antena.py:116-129 | Either the whole judged lamina goes out, carriage returns off, or nothing of it does. |
| LaminaServir.ServidaVuelveAPasar | toolchain/tools/antena/antena.py:116-129 | The stream sent for an accepted file is accepted again with the same size and counts, and has exactly n+1 lines. |
| LaminaServir.ServirPagina | toolchain/tools/antena/antena.py:203-229 | What the browser gave goes out line by line if it is accepted, and not at all otherwise. |
| LaminaServir.PaginaSaleIgual | toolchain/tools/antena/antena.py:224-229 | Accepted bytes go out unchanged if and only if they end in a newline. |
| Escaner.Cobertura | toolchain/tools/ascii-sweep/ascii_sweep.py:234-512 | In the six languages the spans of any text, put together, are the text: nothing is lost or repeated. |
| EscanerEnTexto.FinDeCadena | toolchain/tools/ascii-sweep/ascii_sweep.py:307-319 | The scan of a string literal; its end may be one past the text after a last backslash. |
| EscanerEnTexto.TramoRustC | toolchain/tools/ascii-sweep/ascii_sweep.py:234-363 | One turn of the Rust and C tokenizer: strict progress and exactly one span. |
| EscanerEnTexto.TramoToml | toolchain/tools/ascii-sweep/ascii_sweep.py:379-409 | One turn of the line-comment tokenizer with the quotes of TOML. |
| EscanerEnTexto.TramoAda | toolchain/tools/ascii-sweep/ascii_sweep.py:412-446 | One turn of the Ada tokenizer. |
| EscanerEnTexto.TramoPowershell | toolchain/tools/ascii-sweep/ascii_sweep.py:473-512 | One turn of the PowerShell tokenizer. |
| EscanerEnTexto.Escanea | toolchain/tools/ascii-sweep/ascii_sweep.py:234-512 | The loop ends on every text; each span starts where the one before ended and the clipped slices are the spans. |
| EscanerEnTexto.EscaneaCobol | toolchain/tools/ascii-sweep/ascii_sweep.py:449-470 | The same for COBOL, which is scanned by lines and columns. |
| EscanerEnTexto.Transliterar | toolchain/tools/ascii-sweep/ascii_sweep.py:604-616 | The loop gives the transliteration and counts the characters without a rule. |
| EscanerEnTexto.BarreTexto | toolchain/tools/ascii-sweep/ascii_sweep.py:619-633 | The sweep of a text: comments rewritten, code untouched in place, unknown characters counted. |
| EscanerEnTexto.NadaDesconocido | toolchain/tools/ascii-sweep/ascii_sweep.py:604-633 | The counter is zero if and only if no comment holds a character without a rule. |
| Barrido.TransliteraEnAscii | toolchain/tools/ascii-sweep/ascii_sweep.py:604-616 | A text in which every character outside ASCII has a rule is transliterated into pure ASCII. |
| Barrido.NoAsciiPorClase | toolchain/tools/ascii-sweep/ascii_sweep.py:787-806 | The characters outside ASCII of a text are those of its code plus those of its comments. |
| Barrido.ComentariosAscii | toolchain/tools/ascii-sweep/ascii_sweep.py:787-806 | If the count of characters outside ASCII in the comments is zero, every comment is pure ASCII and rewriting changes none of the spans. |
| Barrido.SegundaVueltaNada | toolchain/tools/ascii-sweep/ascii_sweep.py:787-806 | In every language, then, every comment span of the rewritten text is pure ASCII and a second sweep changes nothing. |
| Estable.SiempreAlineado | toolchain/tools/ascii-sweep/ascii_sweep.py:379-446 | TOML and Ada, any table: the rewritten text has the spans of the original, each comment in its rewritten form. |
| Estable.NuncaRechazado | toolchain/tools/ascii-sweep/ascii_sweep.py:650-669 | So the sweep of a TOML or Ada file is never refused. |
| EstableBloques.CodigoEstable | toolchain/tools/ascii-sweep/ascii_sweep.py:234-363 | In Rust and C a span of code is found again when the next two characters agree and, in Rust, the look-ahead for a raw string gives the same answer. |
| EstableBloques.OtroEstable | toolchain/tools/ascii-sweep/ascii_sweep.py:234-363 | In Rust, C and PowerShell, so, a span of code is found again before the rewritten rest of the text. |
| EstableBloques.AlineadoSii | toolchain/tools/ascii-sweep/ascii_sweep.py:234-363 | In Rust, C and PowerShell the rewritten text has the spans of the original, each comment in its rewritten form, if and only if every rewritten block comment is one comment by itself. |
| EstableBloques.CierranNoRechaza | toolchain/tools/ascii-sweep/ascii_sweep.py:650-669 | A file whose rewritten block comments are one comment by themselves is never refused. |
| EstableBloques.DosPorUno | toolchain/tools/ascii-sweep/ascii_sweep.py:650-669 | The converse fails: one comment may become two, the spans are lost, and the file is accepted because neither text holds code. |
| EstableBloques.SuavesCierran | toolchain/tools/ascii-sweep/ascii_sweep.py:604-616 | They are when every replacement used in one is non-empty and free of the two characters that close it: `*` and `/`, or in PowerShell `#` and `>`. |
| EstableBloques.SuaveNuncaRechazado | toolchain/tools/ascii-sweep/ascii_sweep.py:650-669 | And then the spans stay where they were and the sweep of a Rust, C or PowerShell file is never refused. |
| EstableBloques.EstrellaRechaza | toolchain/tools/ascii-sweep/ascii_sweep.py:650-669 | Without that condition it can be: a star drawn before a slash becomes `*`, closes the comment, and the file is refused. |
| EstableBloques.BarraRechaza | toolchain/tools/ascii-sweep/ascii_sweep.py:473-512 | The same in PowerShell, with a solid block that becomes `#` before `>`. |
| EstableCobol.CobolAlineadoSii | toolchain/tools/ascii-sweep/ascii_sweep.py:449-470 | In COBOL the rewritten text has the spans of the original, each comment in its rewritten form, if and only if every rewritten line is still one line, with the spans it had. |
| EstableCobol.IntactasNoRechaza | toolchain/tools/ascii-sweep/ascii_sweep.py:650-669 | A COBOL file whose lines survive is never refused. |
| EstableCobol.SuavesIntactas | toolchain/tools/ascii-sweep/ascii_sweep.py:449-470 | The lines survive when no comment holds or is given a line end outside ASCII, the six columns before a mark in column 7 are rewritten into six characters, and a comment that starts before column 5 puts no mark in column 7. |
| EstableCobol.SuaveNuncaRechazado | toolchain/tools/ascii-sweep/ascii_sweep.py:650-669 | And then the spans stay where they were and the COBOL file is never refused. |
| EstableCobol.CorridaRechaza | toolchain/tools/ascii-sweep/ascii_sweep.py:449-470 | One whose lines do not can be: an ellipsis becomes three dots, pushes the mark off column 7, and the comment is read as code. |
| Tramas.EnmascaraDosVeces | toolchain/tools/antena/navegador.py:131 | Masking (section 5.3 of RFC 6455) is its own inverse, for every payload, mask and offset. |
| Tramas.LongitudVuelve | toolchain/tools/antena/navegador.py:143-147 | The 7, 16 and 64-bit length fields of section 5.2 read back as the length written. |
| Tramas.LeeCodifica | toolchain/tools/antena/navegador.py:134-151 | Reading the bytes of any frame, in any length form, masked or not, gives the frame and leaves exactly what follows it. |
| Tramas.EnviadaSeLee | toolchain/tools/antena/navegador.py:117-132 | The frame of `enviar` reads back as final, opcode 1 and the payload, and no other length form of it is shorter. |
| Tramas.MensajeEntero | toolchain/tools/antena/navegador.py:134-159 | A message in any fragments with any control frames between reads as the joined payloads, one pong owed per ping, nothing after it touched. |
| Enchufe.SaludoFirme | toolchain/tools/antena/navegador.py:97-105 | Whether the greeting is good, and what follows it, does not depend on where the pieces of the stream were cut. |
| Enchufe.Conecta | toolchain/tools/antena/navegador.py:85-105 | After the handshake what is left to read, carry-over first, is exactly what follows the first blank line; a refusal means that the stream has no good greeting; a request that is cut short is a timeout. |
| Enchufe.WebSocket.Leer | toolchain/tools/antena/navegador.py:107-115 | Exactly n bytes, those of the carry-over first; a close means that there were fewer. |
| Enchufe.WebSocket.AplicaMascara | toolchain/tools/antena/navegador.py:131 | The masking loop. |
| Enchufe.EnterasTras | toolchain/tools/antena/navegador.py:132 | Whole frames followed by a frame sent as far as the peer takes it are whole frames if and only if it took all of it or nothing. |
| Enchufe.WebSocket.Enviar | toolchain/tools/antena/navegador.py:117-132 | Sends exactly the bytes of one masked text frame, or as much of it as the peer takes before time runs out; a payload over 64 bits of length sends nothing. |
| Enchufe.WebSocket.UnaTrama | toolchain/tools/antena/navegador.py:134-151 | The reads of one frame, however the bytes arrive. |
| Enchufe.WebSocket.Recibir | toolchain/tools/antena/navegador.py:134-159 | The first message of the stream, one pong sent for each ping before its end, and the stream left right after it; or the reason why there is none, perhaps with the last pong cut short. |
| Enchufe.MensajesEnOrden | toolchain/tools/antena/navegador.py:134-159 | Of a stream of messages the texts come out in their order and no byte after the last frame is touched. |
| Enchufe.PongSeLee | toolchain/tools/antena/navegador.py:153-154 | The pong is one final frame with opcode 10 and an empty payload. |
| Sesion.Navegador.Mensaje | toolchain/tools/antena/navegador.py:187-193 | A message read whole leaves the connection at the start of the next one; running out of time gives none. |
| Sesion.Navegador.Ordena | toolchain/tools/antena/navegador.py:195-208 | The answer accepted is the first message with the id of this order read after it was sent; only a lost connection may be left in mid-message. |
| Sesion.NoEsAnterior | toolchain/tools/antena/navegador.py:195-208 | What answers an order answers none of those sent before it. |
| Sesion.CrecenDistintos | toolchain/tools/antena/navegador.py:196-197 | No id is ever used twice in a session. |
| Sesion.Navegador.EsperaCarga | toolchain/tools/antena/navegador.py:210-222 | Ends well only with the load event of that very navigation. |
| Sesion.Navegador.AbrirPestana | toolchain/tools/antena/navegador.py:224-242 | A connection is kept only after its three orders were sent and each was answered, and then at the start of a message. |
| Sesion.Navegador.TirarPestana | toolchain/tools/antena/navegador.py:244-253 | The connection is closed and forgotten, and so is the tab. |
| Sesion.Navegador.LaminaDe | toolchain/tools/antena/navegador.py:258-315 | Whatever happened on the wire, what is kept is an open connection at the start of a message or none; the program's own failure drops it. Only whole frames were sent on a kept connection unless the call ended with another error; when the browser stops taking bytes inside the frame of the first order it does, and the connection is kept with half a frame sent. |
| Sesion.Corrida | toolchain/tools/antena/navegador.py:187-315 | Any run of calls, timeouts and closes at any byte included, keeps that, sends growing ids, and accepts at most one answer per order, in order. |
| Puerta.PalabraVuelve | Ultra_userspace/userland/src/archivo.rs:319-330 | A word of the gate loses nothing: its count, its bytes, and it fits 64 bits. |
| Puerta.Ranura.OpLeer | Ultra_kernel_x86-64/kernel/src/ring0/obj/file.rs:717-733 | One call takes the next seven bytes, or those that are left, and says how many. |
| Puerta.Ranura.OpEscribir | Ultra_kernel_x86-64/kernel/src/ring0/obj/file.rs:759-785 | The bytes of a word are stored one by one until there is no room, and the count stored is returned. |
| Puerta.Archivo.Read | Ultra_userspace/userland/src/archivo.rs:311-332 | Fills the buffer with exactly the bytes at the cursor, leaves the rest of it alone, and moves the cursor by whole steps of seven. |
| Puerta.Contigua | Ultra_userspace/userland/src/archivo.rs:311-332 | The next read goes on where this one ended if and only if it asked for a multiple of seven or reached the end. |
| Puerta.Archivo.Write | Ultra_userspace/userland/src/archivo.rs:339-355 | Stores a prefix of the data, zeros included, and returns exactly its length. |
| Puerta.Archivo.Saltar | Ultra_userspace/userland/src/archivo.rs:366-371 | The cursor goes to the position asked for, clamped to the size. |
| Paquete.Abre | Ultra_userspace/userland/src/paquete.rs:121-162 | Opening answers what the pure lookup of the section of resources says of the image. |
| Paquete.Paquete.Nombre | Ultra_userspace/userland/src/paquete.rs:173-188 | Writes the name of an entry up to its first NUL, and nothing after it. |
| Paquete.Paquete.Busca | Ultra_userspace/userland/src/paquete.rs:195-215 | The search answers what the pure lookup in the image says, wherever earlier calls left the cursor. |
| Paquete.Paquete.Leer | Ultra_userspace/userland/src/paquete.rs:222-230 | Brings what fits of the resource found, and leaves the rest of the buffer as it was. |
| PaqueteFormato.IgualExacto | Ultra_userspace/userland/src/paquete.rs:203-208 | An entry answers to its name and to nothing else, except for NULs added at the end of the query. |
| PaqueteFormato.BuscarEsPorNombre | Ultra_userspace/userland/src/paquete.rs:195-215 | On any image packed in the stated format, with names of its own, the search is the lookup by name in the list of resources. |
| PaqueteFormato.SinNombreNada | Ultra_userspace/userland/src/paquete.rs:195-215 | A name that is not in the list, such as the beginning of one that is, finds nothing. |
| PaqueteFormato.LeerExacto | Ultra_userspace/userland/src/paquete.rs:222-230 | Every packed resource is read back: its first min(buffer, size) bytes. |
| PaqueteFormato.MontarHalla | Ultra_userspace/userland/src/paquete.rs:121-162 | A container whose first row of resources points at a packed section gives its index; one without it has no resources. |
| PaqueteFormato.EmpaquetadoIlegible | platform/abi/bmo-abi/src/bef/recursos.rs:77-115 | From a section that `construir` built, with names whose byte 38 (if they have 40 bytes or more) is neither NUL nor 0xFF, no query brings a byte to the reader of `paquete.rs`: a resource is read right if and only if it is empty or the buffer is. |
| PaqueteFormato.NombreDeTexto | platform/abi/bmo-abi/src/bef/recursos.rs:77-115 | That holds of every name `construir` accepts with no NUL and no 0xFF in it, so of every UTF-8 name without NULs. |
| PaqueteFormato.NulEnElNombre | platform/abi/bmo-abi/src/bef/recursos.rs:77-115 | Byte 38 matters: with NULs in a name of 40 bytes the reader takes the start of the section for a resource. |
| PaqueteFormato.NombreLargoNoAparece | platform/abi/bmo-abi/src/bef/recursos.rs:77-115 | Nor does it ever find a name of eight bytes or more in one. |
| PaqueteFormato.IconoPerdido | platform/abi/bmo-abi/src/bef/recursos.rs:77-115 | A concrete case: an icon of three bytes of which it gives none. |
| Renglones.Linea.Limpiar | Ultra_kernel_x86-64/kernel/src/ring0/syscall/mod.rs:548-553 | The line becomes empty and the caller's. |
| Renglones.Linea.DatosMeter | Ultra_kernel_x86-64/kernel/src/ring0/syscall/mod.rs:556-573 | As many bytes of a word as it says, after emptying a line that was another process's, up to what fits. |
| Renglones.Linea.RutaPush | Ultra_kernel_x86-64/kernel/src/ring0/syscall/mod.rs:597-615 | The bytes of a word before its first NUL, up to what fits. |
| Renglones.Linea.DatosTomar | Ultra_kernel_x86-64/kernel/src/ring0/syscall/mod.rs:577-590 | What its owner gathered, and nothing to anyone else. |
| Renglones.SinMezcla | Ultra_kernel_x86-64/kernel/src/ring0/syscall/mod.rs:535-590 | In any interleaving of processes what one takes is only bytes of its own, in order, none missing in between. |
| Renglones.MandarDatos | Ultra_userspace/userland/src/estratos.rs:307-323 | The line ends up with the data whatever it held before, zeros included; whole if and only if it has at most 96 bytes. |
| Renglones.MandarRuta | Ultra_userspace/userland/src/estratos.rs:288-297 | The line gets, after what the caller had left in it, what each word of the path holds before its first NUL. |
| Renglones.RutaEntera | Ultra_userspace/userland/src/estratos.rs:288-297 | A path reaches an empty line whole if and only if it has no NUL and at most 128 bytes. |
| Renglones.CorteEnElPrimerNul | Ultra_userspace/userland/src/estratos.rs:288-303 | The path is cut at its first NUL, as the comment says, if and only if every later word begins with a NUL. |
| Renglones.CorteFallido | Ultra_kernel_x86-64/kernel/src/ring0/syscall/mod.rs:597-615 | A path for which it is not. |
| Renglones.TextoDe | Ultra_userspace/userland/src/estratos.rs:235-253 | The text up to its first NUL, as far as the buffer goes, and nothing after it. |
| Usos.RutaDe | toolchain/tools/capas/capas.py:194-215 | The loop of `_ruta`; with `_grupo` it ends on every text, unbalanced braces included. |
| Usos.GrupoDe | toolchain/tools/capas/capas.py:218-240 | The two loops of `_grupo`. |
| Usos.Trozos | toolchain/tools/capas/capas.py:218-232 | The pieces of a group: cut at the commas of its own level up to its closing brace; an unclosed last piece is lost. |
| Usos.PiezasDeItems | toolchain/tools/capas/capas.py:218-232 | A printed group is cut into exactly its pieces, and what follows its brace does not matter. |
| Usos.LeeImprime | toolchain/tools/capas/capas.py:194-240 | Reading the print of any `use` tree gives its root-to-leaf paths in order, with any prefix before and anything harmless after. |
| Usos.UsosEn | toolchain/tools/capas/capas.py:243-248 | The loop over the places where `crate::` starts a word. |
| Usos.UsosDeLineas | toolchain/tools/capas/capas.py:243-248 | A file of `use` lines gives the paths of all its trees, in order. |
| Capas.JuzgarCrates | toolchain/tools/capas/capas.py:395-415 | Every complaint is due, and there is none if and only if every crate has a layer, holds its declaration and uses only permitted layers. |
| Capas.PermitidoCerrado | toolchain/tools/capas/capas.py:99-107 | The table of layers is reflexive and transitive. |
| Capas.AlcanzaPermitido | toolchain/tools/capas/capas.py:395-415 | With no complaint, what a crate reaches by a chain of any length is of a layer it may use. |
| Capas.Anillos | toolchain/tools/capas/capas.py:60-66 | Ring 3 reaches only Ring 3, contracts and pure code; pure code only pure code; only the kernel reaches the kernel. |
| Capas.LimpioSii | toolchain/tools/capas/capas.py:395-415 | When layers and declarations hold, the judge is silent if and only if all chains are permitted. |
| Capas.Recorre | toolchain/tools/capas/capas.py:437-445 | The loop over the edges: silent uses, the set of rising edges and who uses whom. |
| Capas.JuzgarFamilias | toolchain/tools/capas/capas.py:422-451 | A missing declaration stops everything else; otherwise the errors are exactly those of the map and the rising edges exactly the edges that rise. |
| Capas.CabecerasCiertas | toolchain/tools/capas/capas.py:422-451 | With no error every header is true: its name is its folder's and what it connects to is exactly what it uses. |
| Capas.CicloSube | toolchain/tools/capas/capas.py:444-445 | Every cycle of families holds a reported rising edge. |
| Capas.SinCiclosNuevos | toolchain/tools/capas/capas.py:467-473 | If the comparison finds nothing new, every cycle goes through an edge of the base. |
| Capas.Comparar | toolchain/tools/capas/capas.py:467-473 | Today's set is the base without what is gone and with what is new; what is gone was in the base and what is new was not. |
| Censo.Juzga | toolchain/tools/censo-modular/censo_modular.py:665-686 | The four lists hold exactly the new, grown, shrunk and gone files. |
| Censo.AcotaSii | toolchain/tools/censo-modular/censo_modular.py:790-826 | A baseline bounds the Ring 0 files outside it, in every tree that passes, if and only if it holds some ceiling: with none every tree passes. |
| Censo.CensarTiene | toolchain/tools/censo-modular/censo_modular.py:466-477 | The census drops only files under 900 lines of code. |
| CensoTexto.LeerLineaBase | toolchain/tools/censo-modular/censo_modular.py:480-505 | The reading loop, line by line. |
| CensoTexto.LeeEscribe | toolchain/tools/censo-modular/censo_modular.py:480-505 | Reading back what a seal writes gives the same ceilings, exemptions and raises, whatever the comments say, when every entry fits its line. |
| CensoTexto.LeeEscribeSii | toolchain/tools/censo-modular/censo_modular.py:480-505 | What a seal writes is read back as the same baseline if and only if every entry of it fits its line. |
| CensoTexto.LeeBuena | toolchain/tools/censo-modular/censo_modular.py:480-505 | Every entry of a baseline read from any file, with any line ends, fits its line, so it can be written and read back. |
| CensoTexto.LineaDeBuenaSii | toolchain/tools/censo-modular/censo_modular.py:611-612 | The line of a raise is read back exactly when path and motive are one line each, non-empty, with no blank at their outer ends, and the line is neither a comment nor a section. |
| CensoTexto.SelladaBuenaSii | toolchain/tools/censo-modular/censo_modular.py:558-611 | What a seal makes of a readable baseline can be written and read back if and only if the paths that get a ceiling fit their lines and every raise has such a line. |
| CensoTexto.Sellar | toolchain/tools/censo-modular/censo_modular.py:508-657 | A refusal leaves the file alone; a seal writes the whole baseline anew. |
| CensoTexto.Resella | toolchain/tools/censo-modular/censo_modular.py:783-788 | `--sellar` from file to file: the new text is that of `SellaTexto`, and the result says why it was refused, an unreadable baseline included. |
| CensoHistoria.LoQueSeLee | toolchain/tools/censo-modular/censo_modular.py:480-657 | For any motive, what the run after a seal reads is the ceilings of the tree, the exemptions and raises there were, and then whatever the lines of the motive say. |
| CensoHistoria.MotivoPartido | toolchain/tools/censo-modular/censo_modular.py:611-612 | Of a motive of several lines the first is read as the raise and each other one as a line of its own. |
| CensoHistoria.RayaPerdida | toolchain/tools/censo-modular/censo_modular.py:480-505 | A raise of a path that begins with `#` is read as a comment, and lost. |
| CensoHistoria.Ring0EntraSii | toolchain/tools/censo-modular/censo_modular.py:544-657 | No Ring 0 path enters the baseline that is read after a seal if and only if no line of the motive puts one among the ceilings; the exempt paths stay the same if and only if no line puts another one there; and it can be read at all if and only if every line among the ceilings begins with a number. |
| CensoHistoria.SelloGuardado | toolchain/tools/censo-modular/censo_modular.py:508-657 | With a motive of one line, and paths that fit their lines, the next run reads the ceilings and exemptions that were sealed. |
| CensoHistoria.SelloFiel | toolchain/tools/censo-modular/censo_modular.py:508-657 | It reads everything that was sealed, the raise included, if and only if the raise fits its line too. |
| CensoHistoria.HistoriaFielSii | toolchain/tools/censo-modular/censo_modular.py:783-788 | Over any history of trees and seals the file says at every moment what a baseline kept in memory would, if and only if every seal that is done can be read back. |
| CensoHistoria.HistoriaGuardada | toolchain/tools/censo-modular/censo_modular.py:783-788 | Over any history whose motives have one line and whose paths fit, its ceilings and exemptions do. |
| CensoHistoria.Ring0EncogeEnTexto | toolchain/tools/censo-modular/censo_modular.py:544-556 | Over any such history the Ring 0 paths of the file only shrink and its exemptions stay. |
| CensoHistoria.Ring0AcotadoEnTexto | toolchain/tools/censo-modular/censo_modular.py:665-686 | So a Ring 0 file outside the first file, not exempt and not generated, has at most 1000 lines of code in every tree that passes, as long as the file holds some ceiling. |
| CensoHistoria.EnReposo | toolchain/tools/censo-modular/censo_modular.py:635-638 | Right after such a seal the run that reads the file again finds the same tree at rest: four empty lists. |
| CensoHistoria.AlMasUnaEnTexto | toolchain/tools/censo-modular/censo_modular.py:558-611 | Such a seal raises at most one ceiling of the file, with a motive; when it can be read back the file holds one more line, with that path, both numbers and the motive, and otherwise none. |
| CensoHistoria.ArbolLimpioEnTexto | toolchain/tools/censo-modular/censo_modular.py:635-638 | Sealing a tree with no long file leaves a file without ceilings, whatever the motive. |
| CensoHistoria.MotivoMete | toolchain/tools/censo-modular/censo_modular.py:508-657 | A motive of three lines puts any path into the baseline with any ceiling, of Ring 0 too: the sealed tree is not at rest, and that file passes the check at that size. |
| CensoHistoria.MotivoExime | toolchain/tools/censo-modular/censo_modular.py:508-657 | Another one exempts any path. |
| CensoHistoria.MotivoRompe | toolchain/tools/censo-modular/censo_modular.py:480-657 | And one leaves a baseline that no later run can read. |
| Antena.Limpio | toolchain/tools/antena/antena.py:85-88 | A title is never empty, has at most 160 characters and only printable ASCII. |
| Antena.IdsDistintos | toolchain/tools/antena/antena.py:100-113 | No two entries of a listing share an id. |
| Antena.ListadoResuelve | toolchain/tools/antena/antena.py:258-263 | Every listed id is well formed and found again as the file it was listed with, while the folder is the same. |
| Antena.LeeUnaExacta | toolchain/tools/antena/antena.py:149-159 | A line that is read is the stream up to its first newline without the line end, and what follows is left; the reading ends exactly when there is no newline in at most 258 characters, and the connection is cut exactly when there is none in the first 258 of more, or the line holds a character that cannot be seen. |
| Antena.LineaCorta | toolchain/tools/antena/antena.py:149-159 | A line that is read has at most 258 characters, all printable ASCII. |
| Antena.Linea.Leer | toolchain/tools/antena/antena.py:140-159 | Reads exactly the next line of the stream, and after 72 lines none. |
| Antena.Contesta | toolchain/tools/antena/antena.py:253-278 | The answer to one line, as it is sent. |
| Antena.Atiende | toolchain/tools/antena/antena.py:244-278 | At most 72 lines are read, the first ones of the stream, and what is sent is exactly the conversation they make. |
| Antena.SaludoPrimero | toolchain/tools/antena/antena.py:244-248 | Nothing is sent before the right greeting; it is answered first and once. |
| Antena.VideoAlFinal | toolchain/tools/antena/antena.py:270-271 | A video is the last thing that is sent. |
| Antena.ListasEnteras | toolchain/tools/antena/antena.py:253-257 | Every announcement is of at most 64 entries and is followed by exactly that many, those of the folder when a line that asked for a listing was answered, in order. |
| Antena.PideLoListado | toolchain/tools/antena/antena.py:258-271 | Asking for a listed id of an unchanged folder answers with the file it was listed with. |

## Left out

- The kernel beyond the gate's read, write and seek and the two lines of the current process: schedulers, drivers, ESTRATOS on disk, capabilities.
- Floating point: pixel positions and font sizes are reals, so the rounding of the layout engine is not part of the model.
- Text in JavaScript and Python is a sequence of characters here; a surrogate pair of UTF-16 counts as one character.
- The tables of Unicode: which characters are letters, blanks of JavaScript, or decompose, come in as functions or as the listed ranges.
- The string-rewriting mode of the sweeper, its markdown branch (one span for the whole file), its list of files and the ceiling of the host strings.
- The code pages of `repair_mojibake`; only what one run may become is stated.
- Agreement of the scanners with the real lexers of the languages.
- JSON and HTTP syntax in both directions, the request of the handshake and its key, and errors of the network other than timeouts and closes.
- The time that each part of a page load takes.
- Opening, closing and listing of files, and `leer_en` and `escribir_de`, which move whole blocks.
- The name of a path in UTF-8, and what the kernel does with a path once it is taken.
- The removal of comments before `usos`, and letters outside ASCII right before `crate::`.
- The census of crates, the measuring of knots, and the other judges of `capas.py`, which compare lists.
- Counting lines of code and functions, the species of a file and the printed report of the ratchet; ceilings with a sign or with other digits.
- The order of sorted lists: sorted keys come in as a list of all the keys.
- ffmpeg, the contents of a video, the measures file, and the punishment of a wrong address.
- Usos.LeeImprime: an item spelt `self` alone is the group's own path, so a segment of that name cannot be an item by itself.
- Capas.Comparar: one binary at a time; the source does the same for each name.
