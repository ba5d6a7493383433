/** The pydantic models of the user API (schemas/user.py). */
module UserSchemas {

  datatype Token = Token(accessToken: string, tokenType: string)

  datatype CreateUserRequest = CreateUserRequest(email: string, fullName: string, password: string)

  datatype LoginUserRequest = LoginUserRequest(email: string, password: string)

  datatype User = User(email: string, fullName: string)

  /** A `User` with its bcrypt hash: the shape of a document in the users collection. */
  datatype UserInDB = UserInDB(email: string, fullName: string, hashedPassword: string) {
    /** What `response_model=User` keeps of it. */
    function AsUser(): User {
      User(email, fullName)
    }
  }
}
