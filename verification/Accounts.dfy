/** User accounts: roles, credential generations, and which tokens belong to the current generation. */
module Accounts {
  import opened Text

  datatype Role = Pending | Student | Moderator | Bureau | Vieux | Guest

  predicate AdminRole(r: Role)
  {
    r == Bureau || r == Vieux
  }

  datatype User = User(email: string, role: Role, generation: nat, password: Option<string>, deleted: bool)

  /** The `gen` claim of a decoded token: absent, an integer, or something else. */
  datatype GenClaim = Absent | Number(n: int) | Malformed

  predicate MatchesGeneration(claim: GenClaim, user: User)
  {
    match claim
    case Absent => user.generation == 0
    case Number(n) => n == user.generation
    case Malformed => false
  }
}
