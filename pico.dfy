/** The result of the external HTTP/1.x tokenizer (`phr_parse_request`), taken as
    given: "needs more bytes" (-2), "malformed" (any other negative value), or the
    method (`verb`), path and header list it found. Texts stand for the views it returns. */
module Pico {

  datatype Header = Header(name: string, value: string)

  datatype PicoResult =
    | Partial
    | Malformed
    | Parsed(verb: string, path: string, headers: seq<Header>)

  /** Separates the header block from the body. */
  const Terminator: string := "\r\n\r\n"
}
