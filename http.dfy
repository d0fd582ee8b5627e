/** HTTP answers of the Express handlers: a status code and a JSON body. */
module Http {
  import opened Store

  /** The `user` object of a sign-in answer: only the public fields. */
  datatype PublicUser = PublicUser(name: string, email: string)

  datatype Body =
    | Message(message: string)
    | SignedIn(token: string, user: PublicUser)
    | BlogList(message: string, data: seq<Blog>)
    | BlogCreated(message: string, blog: Blog)

  datatype Response = Response(status: int, body: Body)
}
