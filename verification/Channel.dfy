/** What the walk reads from Discord and from its file server. */
module Channel {
  import opened Options

  /** How the GET of an attachment begins: it fails to set up, or answers with a status. */
  datatype Reply = SetupError | Status(code: int)

  datatype Attachment = Attachment(
    filename: string,
    contentType: Option<string>,
    size: Option<nat>,
    reply: Reply)

  datatype Message = Message(id: int, author: nat, createdAt: real, attachments: seq<Attachment>)

  /** `getattr(attachment, "size", 0) or 0`. */
  function SizeOf(a: Attachment): nat {
    match a.size
    case None => 0
    case Some(n) => n
  }
}
