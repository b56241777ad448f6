/** Who is behind a request. */
module Principal {
  /** The authenticated user, and whether that user is an administrator. */
  datatype Actor = Actor(sub: string, isAdmin: bool)
}
