/**
 * The users store: the tolerant reader that turns an account record into an
 * `AppUser`, the envelope unwrapping of the user list, and the store state
 * after `loadAllUsers` has received its response.
 */
module Users {
  import opened Wrappers
  import opened Js
  import opened Http

  datatype AppUser = AppUser(
    id: string,
    email: string,
    username: Option<string>,
    isAdmin: bool,
    createdAt: Option<string>,
    updatedAt: Option<string>)

  /** The admin flag as the reader looks it up: `raw.isAdmin ?? raw.is_admin ?? raw.IsAdmin`. */
  function AdminFlag(raw: Json): Json {
    Get(raw, "isAdmin").Or(Get(raw, "is_admin")).Or(Get(raw, "IsAdmin"))
  }

  /** `normalizeUser(raw)`. */
  function NormalizeUser(raw: Json): AppUser {
    AppUser(
      StringOr(Get(raw, "id").Or(Get(raw, "Id")), ""),
      StringOr(Get(raw, "email").Or(Get(raw, "Email")), ""),
      OptionalString(Get(raw, "username").Or(Get(raw, "Username"))),
      Truthy(AdminFlag(raw)),
      OptionalString(Get(raw, "createdAt").Or(Get(raw, "created_at"))),
      OptionalString(Get(raw, "updatedAt").Or(Get(raw, "updated_at"))))
  }

  /**
   * A user is an administrator exactly when the first present spelling of the
   * flag is truthy: `true`, a non-zero number, a non-empty string (the string
   * `"false"` included), an array or an object.
   */
  lemma AdminIsTruthiness(raw: Json)
    ensures !Get(raw, "isAdmin").Null? ==> (NormalizeUser(raw).isAdmin <==> Truthy(Get(raw, "isAdmin")))
    ensures Get(raw, "isAdmin").Null? && !Get(raw, "is_admin").Null? ==>
      (NormalizeUser(raw).isAdmin <==> Truthy(Get(raw, "is_admin")))
    ensures Get(raw, "isAdmin").Null? && Get(raw, "is_admin").Null? ==>
      (NormalizeUser(raw).isAdmin <==> Truthy(Get(raw, "IsAdmin")))
  {
  }

  /** The optional members: the camelCase spelling when present, else the alternate, else undefined. */
  lemma OptionalMembersPrecedence(raw: Json)
    ensures !Get(raw, "username").Null? ==> NormalizeUser(raw).username == Some(ToJsString(Get(raw, "username")))
    ensures Get(raw, "username").Null? ==> NormalizeUser(raw).username == OptionalString(Get(raw, "Username"))
    ensures !Get(raw, "createdAt").Null? ==> NormalizeUser(raw).createdAt == Some(ToJsString(Get(raw, "createdAt")))
    ensures Get(raw, "createdAt").Null? ==> NormalizeUser(raw).createdAt == OptionalString(Get(raw, "created_at"))
    ensures !Get(raw, "updatedAt").Null? ==> NormalizeUser(raw).updatedAt == Some(ToJsString(Get(raw, "updatedAt")))
    ensures Get(raw, "updatedAt").Null? ==> NormalizeUser(raw).updatedAt == OptionalString(Get(raw, "updated_at"))
  {
  }

  /** The user every key-less record (or non-object) reads as. */
  const EmptyUser: AppUser := AppUser("", "", None, false, None, None)

  /** Missing or null members take their defaults: `''`, `false` or undefined. */
  lemma UserDefaults(raw: Json)
    requires Get(raw, "id").Null? && Get(raw, "Id").Null?
    requires Get(raw, "email").Null? && Get(raw, "Email").Null?
    requires Get(raw, "username").Null? && Get(raw, "Username").Null?
    requires Get(raw, "isAdmin").Null? && Get(raw, "is_admin").Null? && Get(raw, "IsAdmin").Null?
    requires Get(raw, "createdAt").Null? && Get(raw, "created_at").Null?
    requires Get(raw, "updatedAt").Null? && Get(raw, "updated_at").Null?
    ensures NormalizeUser(raw) == EmptyUser
  {
  }

  /** A user written as the server would send it, in camelCase or in the alternate spelling. */
  function EncodeUser(u: AppUser, c: Casing): Json {
    var base := map[
      Key(c, "id", "Id") := Str(u.id),
      Key(c, "email", "Email") := Str(u.email),
      Key(c, "isAdmin", "is_admin") := Bool(u.isAdmin)];
    var withName := WithOptional(base, Key(c, "username", "Username"), u.username);
    var withCreated := WithOptional(withName, Key(c, "createdAt", "created_at"), u.createdAt);
    Obj(WithOptional(withCreated, Key(c, "updatedAt", "updated_at"), u.updatedAt))
  }

  // One member of an encoded user at a time: each reads back as the field it was written from.

  lemma EncodedUserId(u: AppUser, c: Casing)
    ensures StringOr(Get(EncodeUser(u, c), "id").Or(Get(EncodeUser(u, c), "Id")), "") == u.id
  {
  }

  lemma EncodedUserEmail(u: AppUser, c: Casing)
    ensures StringOr(Get(EncodeUser(u, c), "email").Or(Get(EncodeUser(u, c), "Email")), "") == u.email
  {
  }

  lemma EncodedUserName(u: AppUser, c: Casing)
    ensures OptionalString(Get(EncodeUser(u, c), "username").Or(Get(EncodeUser(u, c), "Username"))) == u.username
  {
  }

  lemma EncodedUserAdmin(u: AppUser, c: Casing)
    ensures Truthy(AdminFlag(EncodeUser(u, c))) == u.isAdmin
  {
  }

  lemma EncodedUserCreatedAt(u: AppUser, c: Casing)
    ensures OptionalString(Get(EncodeUser(u, c), "createdAt").Or(Get(EncodeUser(u, c), "created_at"))) == u.createdAt
  {
  }

  lemma EncodedUserUpdatedAt(u: AppUser, c: Casing)
    ensures OptionalString(Get(EncodeUser(u, c), "updatedAt").Or(Get(EncodeUser(u, c), "updated_at"))) == u.updatedAt
  {
  }

  /** Reading back any user, in either spelling, gives the user itself. */
  lemma NormalizeEncodeUser(u: AppUser, c: Casing)
    ensures NormalizeUser(EncodeUser(u, c)) == u
  {
    EncodedUserId(u, c);
    EncodedUserEmail(u, c);
    EncodedUserName(u, c);
    EncodedUserAdmin(u, c);
    EncodedUserCreatedAt(u, c);
    EncodedUserUpdatedAt(u, c);
  }

  /** The keys under which the list response may wrap its array, in the order they are tried. */
  const UserEnvelope: seq<string> := ["users", "data", "items", "result"]

  /** `toUserArray(data)`. */
  function ToUserArray(data: Json): (r: seq<AppUser>)
    ensures |r| == |Records(data, UserEnvelope)|
  {
    var recs := Records(data, UserEnvelope);
    seq(|recs|, i requires 0 <= i < |recs| => NormalizeUser(recs[i]))
  }

  /** A bare array is read element by element, in order, dropping elements that are not records. */
  lemma UsersKeepOrder(xs: seq<Json>, ys: seq<Json>)
    ensures ToUserArray(Arr(xs + ys)) == ToUserArray(Arr(xs)) + ToUserArray(Arr(ys))
  {
    ObjectElementsAppend(xs, ys);
  }

  /** An array of encoded users reads back as those users. */
  lemma {:induction false} EncodedUsersReadBack(us: seq<AppUser>, c: Casing)
    ensures ToUserArray(Arr(seq(|us|, i requires 0 <= i < |us| => EncodeUser(us[i], c)))) == us
  {
    var xs := seq(|us|, i requires 0 <= i < |us| => EncodeUser(us[i], c));
    assert forall i :: 0 <= i < |xs| ==> IsObjectLike(xs[i]);
    ObjectElementsOfRecords(xs);
    forall i | 0 <= i < |us| ensures ToUserArray(Arr(xs))[i] == us[i] {
      NormalizeEncodeUser(us[i], c);
    }
  }

  /** Each envelope key, `result` included, yields the same users as the bare array it wraps. */
  lemma UsersOfEnvelope(k: string, xs: seq<Json>)
    requires k in UserEnvelope
    ensures ToUserArray(Obj(map[k := Arr(xs)])) == ToUserArray(Arr(xs))
  {
    EnvelopeUnwrapped(k, xs, UserEnvelope);
  }

  /** Strings, numbers, booleans and null hold no users. */
  lemma ScalarHoldsNoUsers(data: Json)
    requires !IsObjectLike(data)
    ensures ToUserArray(data) == []
  {
  }

  /** The users store's state. */
  class UsersStore {
    var users: seq<AppUser>
    var loading: bool
    var error: Option<string>

    constructor()
      ensures users == [] && !loading && error.None?
    {
      users := [];
      loading := false;
      error := None;
    }

    /**
     * `loadAllUsers()` once the GET has produced `o`. The request runs under a
     * 15-second abort timer, so an abort is reported as a timeout.
     */
    method LoadAllUsers(o: Outcome, parse: Parser)
      modifies this
      ensures Loaded(users, error) == LoadCollection(Receive(o, parse), ToUserArray, "users", true)
      ensures !loading
    {
      loading := true;
      error := None;
      match Receive(o, parse) {
        case Failed(e) =>
          error := Some(if IsAbort(e) then "Request timed out" else e.message.GetOr(LoadFailedText("users")));
          users := [];
        case Unparsable =>
          error := Some(InvalidJson);
          users := [];
        case Answered(status, statusText, raw) =>
          if !IsOk(status) {
            error := Some(LoadFailureMessage(raw, status, statusText, "users"));
            users := [];
          } else {
            users := ToUserArray(if raw.Null? then Arr([]) else raw);
          }
      }
      loading := false;
    }
  }
}
