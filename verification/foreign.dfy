/** The library calls the handlers make, left uninterpreted, and the JSON Web
    Token claims they sign. */
module Foreign {
  import opened Base

  /** The options passed to `gravatar.url`: size 200, rating pg, default image "mm". */
  datatype AvatarOptions = AvatarOptions(size: string, rating: string, fallback: string)

  const AvatarDefaults: AvatarOptions := AvatarOptions("200", "pg", "mm")

  /** The `expiresIn` of every issued token, in seconds. */
  const TokenLifetime: nat := 360000

  /** The foreign functions, as parameters: validator's e-mail syntax check,
      `gravatar.url`, `bcrypt.hash(password, salt)`, `bcrypt.compare(password, hash)`
      and whether Mongoose can cast a path parameter to an ObjectId. */
  datatype Env = Env(
    isEmail: string -> bool,
    avatarUrl: (string, AvatarOptions) -> string,
    hash: (string, string) -> string,
    compare: (string, string) -> bool,
    isObjectId: string -> bool)

  datatype ClaimUser = ClaimUser(id: Id)

  /** The token payload `{ user: { id } }`: the user id and nothing else. */
  datatype Claims = Claims(user: ClaimUser)

  /** What `jwt.sign(payload, secret, { expiresIn })` is asked to sign. */
  datatype TokenGrant = TokenGrant(payload: Claims, expiresIn: nat)

  /** The grant for a user: the id as the only claim, valid for 360000 seconds. */
  function IssueToken(id: Id): (g: TokenGrant)
    ensures g.payload.user.id == id && g.expiresIn == 360000
  {
    TokenGrant(Claims(ClaimUser(id)), TokenLifetime)
  }
}
