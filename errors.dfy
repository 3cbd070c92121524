/** The typed errors the services raise (app/exceptions) and the two kinds of
    foreign exception the model lets through: the store's integrity failure and
    any other exception. */
module Errors {
  import opened Text

  datatype Error =
    | UsernameAlreadyExists(username: string, message: string)
    | DuplicateResource(message: string)
    | ResourceNotFound(message: string, errCode: string)
    | Validation(message: string)
      /** SQLAlchemy's IntegrityError; `orig` is the driver's message. */
    | Integrity(orig: string)
      /** Any other exception, with its `str()` text. */
    | Unexpected(text: string)

  /** `UsernameAlreadyExistsError(entity_name, username)`: keeps the username
      and formats the message around it. */
  function UsernameAlreadyExistsError(entityName: string, username: string): (e: Error)
    ensures e.UsernameAlreadyExists? && e.username == username
    ensures Contains(e.message, "'" + username + "'")
  {
    var message := "An " + entityName + " with username '" + username + "' already exists.";
    ContainsConcat("An " + entityName + " with username ", "'" + username + "'", " already exists.");
    assert message == "An " + entityName + " with username " + ("'" + username + "'") + " already exists.";
    UsernameAlreadyExists(username, message)
  }

  /** "<Entity> with id <id> not found", the not-found text of the services
      and the routes. */
  function NotFoundMsg(entity: string, id: int): (m: string)
    ensures Contains(m, IntToString(id))
  {
    ContainsConcat(entity + " with id ", IntToString(id), " not found");
    entity + " with id " + IntToString(id) + " not found"
  }

  /** Different ids give different not-found texts. */
  lemma {:induction false} NotFoundMsgInjective(entity: string, i: int, j: int)
    requires NotFoundMsg(entity, i) == NotFoundMsg(entity, j)
    ensures i == j
  {
    var m, n := NotFoundMsg(entity, i), NotFoundMsg(entity, j);
    var lo := |entity| + 9;
    assert |m| == |n|;
    assert m[lo..|m| - 10] == IntToString(i);
    assert n[lo..|n| - 10] == IntToString(j);
    IntToStringInjective(i, j);
  }

  /** `str(e)`: each of the four application errors passes its message to
      `Exception.__init__`, so its text is that message. */
  function Str(e: Error): (s: string)
    ensures e.UsernameAlreadyExists? || e.DuplicateResource? || e.ResourceNotFound? || e.Validation?
            ==> s == e.message
  {
    match e
    case UsernameAlreadyExists(_, message) => message
    case DuplicateResource(message) => message
    case ResourceNotFound(message, _) => message
    case Validation(message) => message
    case Integrity(orig) => orig
    case Unexpected(text) => text
  }
}
