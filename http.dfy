/** What a handler sends back: a status code and a JSON body (Express's `res.status(s).json(b)`). */
module Http {
  import opened Json

  datatype Reply = Reply(status: int, body: JVal)

  /** What a middleware does with a request: hand it to `next()` or answer it itself. */
  datatype Verdict =
    | Next
    | Reject(reply: Reply)

  /** `{ [key]: text }`: the error envelopes use the key "error" (restaurants, suggestions,
      middlewares) or "message" (admins). */
  function Envelope(key: string, text: string): JVal {
    Obj(map[key := Str(text)])
  }

  /** `res.status(status).json({ error: text })` */
  function ErrorReply(status: int, text: string): Reply {
    Reply(status, Envelope("error", text))
  }

  /** `res.status(status).json({ message: text })` */
  function MessageReply(status: int, text: string): Reply {
    Reply(status, Envelope("message", text))
  }

  /** The application's last error handler, reached by an exception nobody caught. */
  const Uncaught: Reply := ErrorReply(500, "Error interno del servidor")
}
