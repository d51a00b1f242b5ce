/** The responses the handlers send: a status code and a JSON body. */
module Http {
  import opened JsonValue

  datatype Reply = Reply(status: int, body: Json)

  /** `res.status(status).json({ error: message })`. */
  function ErrorReply(status: int, message: string): Reply {
    Reply(status, JObj([Member("error", JStr(message))]))
  }

  /** `res.json({ message: message, <key>: payload })`, status 200. */
  function OkReply(message: string, key: string, payload: Json): Reply {
    Reply(200, JObj([Member("message", JStr(message)), Member(key, payload)]))
  }

  /** What every `catch` block answers, whatever the cause. */
  const InternalError := ErrorReply(500, "Internal server error")
}
