/** The authentication settings of a collection. */
module AuthModel {
  import opened Text

  datatype Surface = Admin | Grpc

  datatype Activation = Always | Header(header: string)

  datatype AuthMethod =
    | PasswordLogin
    | Bearer(surfaces: seq<Surface>)
    | SessionCookie(surfaces: seq<Surface>)
    | Strategy(name: string, authenticate: string, activatesOn: Activation, surfaces: seq<Surface>)

  datatype Auth = Auth(enabled: bool, methods: seq<AuthMethod>)

  datatype Collection = Collection(slug: string, auth: Option<Auth>)

  /** The methods that count: those of an enabled configuration. */
  function ActiveMethods(c: Collection): seq<AuthMethod> {
    if c.auth.Some? && c.auth.value.enabled then c.auth.value.methods else []
  }
}
