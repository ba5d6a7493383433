/** The library calls the service makes, as values the caller supplies: the JWT
    codec of python-jose (RFC 7519, HS256 as in section 3.2 of RFC 7518), passlib's
    bcrypt context, and base64 decoding (section 4 of RFC 4648) followed by UTF-8
    decoding. They are left uninterpreted beyond their types. */
module Externals {
  import opened Wrappers

  /** A JSON value inside a JWT payload: the code only ever stores strings (the
      subject) and the numeric date `exp`. */
  datatype ClaimValue = Text(text: string) | Number(number: int)

  type Claims = map<string, ClaimValue>

  datatype Libs = Libs(
    /** The process-wide `SECRET_KEY`, read once at start-up. */
    secretKey: string,
    /** `jwt.encode(claims, key, algorithm=alg)`. */
    jwtEncode: (Claims, string, string) -> string,
    /** `jwt.decode(token, key, algorithms=algs)` at time `now`: `None` stands
        for every `JWTError` it raises (bad signature, malformed token, expired
        `exp`, a non-string `sub`). */
    jwtDecode: (string, string, seq<string>, int) -> Option<Claims>,
    /** `pwd_context.hash(password)`; total here, although passlib raises a
        `ValueError` for an overlong password or one holding NUL. */
    hash: string -> string,
    /** `pwd_context.verify(plain, hashed)`; total here, although passlib raises
        a `ValueError` for such a password or an unidentifiable hash. */
    verify: (string, string) -> bool,
    /** `base64.b64decode(s).decode("utf-8")`: `None` when either step raises. */
    b64Decode: string -> Option<string>)
}
