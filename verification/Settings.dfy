/** The persisted settings document. */
module Settings {
  /** A byte string, one character per byte. */
  type Bytes = s: string | forall c | c in s :: c as int < 256

  datatype Channel = Channel(id: string, enabled: bool)

  datatype Auth = Auth(enabled: bool, username: Bytes, passwordHash: string)

  datatype Document = Document(auth: Auth, notifications: seq<Channel>, disabledResolvers: seq<string>, sessionSecret: string)

  const DEFAULT := Document(Auth(false, "", ""), [], [], "")
}
