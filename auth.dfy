/** `AuthService.login` (app/services/auth.py): one username lookup, one
    password check, then both tokens issued for the employee's id. The hash
    check and the token issuers are parameters; an issuer may fail, and its
    failure propagates. */
module Auth {
  import opened Results
  import opened Errors
  import opened People
  import opened Store

  datatype Tokens = Tokens(accessToken: string, refreshToken: string)

  class AuthService {
    const repo: EmployeeRepository
    /** `check_password_hash(stored, given)`. */
    const checkHash: (string, string) -> bool
    /** `create_access_token(identity=id)` and `create_refresh_token(identity=id)`. */
    const issueAccess: int -> Result<string, Error>
    const issueRefresh: int -> Result<string, Error>

    constructor (repo: EmployeeRepository, checkHash: (string, string) -> bool,
                 issueAccess: int -> Result<string, Error>, issueRefresh: int -> Result<string, Error>)
      ensures this.repo == repo && this.checkHash == checkHash
      ensures this.issueAccess == issueAccess && this.issueRefresh == issueRefresh
    {
      this.repo := repo;
      this.checkHash := checkHash;
      this.issueAccess := issueAccess;
      this.issueRefresh := issueRefresh;
    }

    /** Both tokens for one identity, access first; the first failure wins. */
    function Issue(id: int): (r: Result<Tokens, Error>)
      ensures r.Success? <==> issueAccess(id).Success? && issueRefresh(id).Success?
      ensures r.Success? ==> r.value == Tokens(issueAccess(id).value, issueRefresh(id).value)
      ensures issueAccess(id).Failure? ==> r == Failure(issueAccess(id).error)
      ensures issueAccess(id).Success? && issueRefresh(id).Failure? ==> r == Failure(issueRefresh(id).error)
    {
      var access :- issueAccess(id);
      var refresh :- issueRefresh(id);
      Success(Tokens(access, refresh))
    }

    /** `login`: None, the same for an unknown username as for a wrong
        password, unless the stored employee with that username has a
        matching hash; then the tokens for that employee's id. */
    method Login(username: string, password: string) returns (r: Result<Option<Tokens>, Error>)
      requires repo.db.Valid()
      ensures (forall k :: k in repo.db.employees && repo.db.employees[k].username == username
                 ==> !checkHash(repo.db.employees[k].password, password))
              ==> r == Success(None)
      ensures forall k :: (k in repo.db.employees && repo.db.employees[k].username == username
                           && checkHash(repo.db.employees[k].password, password))
                ==> (&& (Issue(k).Success? ==> r == Success(Some(Issue(k).value)))
                     && (Issue(k).Failure? ==> r == Failure(Issue(k).error)))
    {
      var employee := repo.GetByUsername(username);
      if employee.Some? && checkHash(employee.value.password, password) {
        var tokens := Issue(employee.value.id);
        if tokens.Failure? {
          return Failure(tokens.error);
        }
        return Success(Some(tokens.value));
      }
      r := Success(None);
    }
  }
}
