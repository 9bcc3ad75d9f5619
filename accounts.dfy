/**
 * The account handlers of the user controller over an in-memory user
 * collection: registration with e-mail verification, login, the
 * forgotten-password flow, recording a quiz result and editing the profile.
 */
module Accounts {
  import opened Wrappers
  import opened EmailFormat

  /** JavaScript truthiness of a request string: present and not empty. */
  predicate Truthy(v: Option<string>) {
    v.Some? && v.value != ""
  }

  /** JavaScript truthiness of a request number: present and not zero. */
  predicate TruthyNumber(v: Option<int>) {
    v.Some? && v.value != 0
  }

  datatype QuizEntry = QuizEntry(
    quizCode: string, className: string, subject: string, quizName: string,
    obtainedMarks: int, totalMarks: int, status: string)

  /** What identifies an attempt: a quiz may be attempted once per name, code, class and subject. */
  datatype QuizKey = QuizKey(quizName: string, quizCode: string, className: string, subject: string)

  function KeyOf(q: QuizEntry): QuizKey {
    QuizKey(q.quizName, q.quizCode, q.className, q.subject)
  }

  datatype User = User(
    id: nat, name: string, email: string, password: string, rollNumber: Option<string>,
    role: string, verified: bool, verificationToken: Option<string>, quizzes: seq<QuizEntry>)

  datatype Error =
    | AllFieldsRequired | EmailRequired | InvalidEmailFormat | EmailAlreadyUsed
    | InvalidVerificationToken | InvalidCredentials | InvalidPassword
    | UnknownEmail | UserNotFound | AlreadyAttempted

  /** The two successful outcomes of registration: a new record (201) or a code sent again (200). */
  datatype Registration = Created | CodeResent

  /** The query filters the handlers give to `findOne` and `findById`. */
  datatype Filter = ByEmail(email: string) | ByVerifiedEmail(email: string) | ByToken(code: string) | ById(id: nat)

  predicate Matches(u: User, f: Filter) {
    match f
    case ByEmail(e) => u.email == e
    case ByVerifiedEmail(e) => u.email == e && u.verified
    case ByToken(c) => u.verificationToken == Some(c)
    case ById(id) => u.id == id
  }

  /** `findOne`: the position of the first record, at or after `from`, that matches the filter. */
  function FindOneFrom(users: seq<User>, f: Filter, from: nat): (r: Option<nat>)
    ensures r.Some? ==> from <= r.value < |users| && Matches(users[r.value], f)
    ensures r.Some? ==> forall j :: from <= j < r.value ==> !Matches(users[j], f)
    ensures r.None? ==> forall j :: from <= j < |users| ==> !Matches(users[j], f)
    decreases |users| - from
  {
    if from >= |users| then None
    else if Matches(users[from], f) then Some(from)
    else FindOneFrom(users, f, from + 1)
  }

  /** `findOne`: the position of the first record that matches the filter, if any. */
  function FindOne(users: seq<User>, f: Filter): (r: Option<nat>)
    ensures r.Some? ==> r.value < |users| && Matches(users[r.value], f)
    ensures r.Some? ==> forall j :: 0 <= j < r.value ==> !Matches(users[j], f)
    ensures r.None? ==> forall j :: 0 <= j < |users| ==> !Matches(users[j], f)
  {
    FindOneFrom(users, f, 0)
  }

  /** `quizzes.find`: the position of the first earlier attempt with the same key, if any. */
  function FindQuiz(quizzes: seq<QuizEntry>, key: QuizKey): (r: Option<nat>)
    ensures r.Some? ==> r.value < |quizzes| && KeyOf(quizzes[r.value]) == key
    ensures r.None? ==> forall j :: 0 <= j < |quizzes| ==> KeyOf(quizzes[j]) != key
  {
    if quizzes == [] then None
    else if KeyOf(quizzes[0]) == key then Some(0)
    else match FindQuiz(quizzes[1..], key)
      case Some(k) => Some(k + 1)
      case None => None
  }

  ghost predicate KeysUnique(quizzes: seq<QuizEntry>) {
    forall i, j :: 0 <= i < j < |quizzes| ==> KeyOf(quizzes[i]) != KeyOf(quizzes[j])
  }

  /** The required-field guard of registration; the roll number may be left out. */
  predicate RegisterFieldsPresent(name: Option<string>, role: Option<string>, email: Option<string>, password: Option<string>) {
    Truthy(name) && Truthy(role) && Truthy(email) && Truthy(password)
  }

  /** The required-field guard of a quiz result: zero obtained marks pass, zero total marks do not. */
  predicate QuizFieldsPresent(quizName: Option<string>, obtainedMarks: Option<int>, totalMarks: Option<int>,
                              status: Option<string>, quizCode: Option<string>, className: Option<string>,
                              subject: Option<string>) {
    && Truthy(quizName) && obtainedMarks.Some? && TruthyNumber(totalMarks) && Truthy(status)
    && Truthy(quizCode) && Truthy(className) && Truthy(subject)
  }

  /** The `User` collection. */
  class UserStore {
    var users: seq<User>
    /** The identifier the next created record receives. */
    var nextId: nat

    /** Identifiers are below `nextId`; no two records share an identifier or an e-mail address. */
    ghost predicate Valid()
      reads this
    {
      && (forall i :: 0 <= i < |users| ==> users[i].id < nextId)
      && (forall i, j :: 0 <= i < j < |users| ==> users[i].id != users[j].id && users[i].email != users[j].email)
    }

    constructor ()
      ensures Valid() && users == [] && nextId == 0
    {
      users := [];
      nextId := 0;
    }

    /**
     * `register`: validate the request, refuse an address a verified account
     * holds, overwrite an unverified account with the same address, or create
     * one; `code` is what `generateCode` returned and stored as the token.
     */
    method Register(name: Option<string>, rollNumber: Option<string>, role: Option<string>,
                    email: Option<string>, password: Option<string>, code: string)
      returns (r: Result<Registration, Error>)
      requires Valid()
      modifies this
      ensures Valid()
      ensures !RegisterFieldsPresent(name, role, email, password) ==> r == Err(AllFieldsRequired)
      ensures RegisterFieldsPresent(name, role, email, password) && !IsValidEmail(email.value) ==>
        r == Err(InvalidEmailFormat)
      ensures r.Err? ==> users == old(users) && nextId == old(nextId)
      ensures RegisterFieldsPresent(name, role, email, password) && IsValidEmail(email.value) ==>
        var found := FindOne(old(users), ByEmail(email.value));
        && (found.Some? && old(users)[found.value].verified ==> r == Err(EmailAlreadyUsed))
        && (found.Some? && !old(users)[found.value].verified ==>
              && r == Ok(CodeResent)
              && nextId == old(nextId)
              && users == old(users)[found.value := old(users)[found.value].(
                   name := name.value, password := password.value, rollNumber := rollNumber,
                   role := role.value, verificationToken := Some(code))])
        && (found.None? ==>
              && r == Ok(Created)
              && nextId == old(nextId) + 1
              && users == old(users) + [User(old(nextId), name.value, email.value, password.value, rollNumber,
                                             role.value, false, Some(code), [])])
      ensures r == Err(EmailAlreadyUsed) <==>
        && RegisterFieldsPresent(name, role, email, password) && IsValidEmail(email.value)
        && exists k :: 0 <= k < |old(users)| && old(users)[k].email == email.value && old(users)[k].verified
    {
      if !RegisterFieldsPresent(name, role, email, password) {
        return Err(AllFieldsRequired);
      }
      if !IsValidEmail(email.value) {
        return Err(InvalidEmailFormat);
      }
      var existing := FindOne(users, ByEmail(email.value));
      if existing.Some? && users[existing.value].verified {
        return Err(EmailAlreadyUsed);
      }
      if existing.Some? {
        var k := existing.value;
        users := users[k := users[k].(name := name.value, password := password.value, rollNumber := rollNumber,
                                      role := role.value, verificationToken := Some(code))];
        return Ok(CodeResent);
      }
      users := users + [User(nextId, name.value, email.value, password.value, rollNumber, role.value, false, Some(code), [])];
      nextId := nextId + 1;
      return Ok(Created);
    }

    /** `verifyEmail`: the record holding the code becomes verified and loses the code. */
    method VerifyEmail(code: string) returns (r: Result<nat, Error>)
      requires Valid()
      modifies this
      ensures Valid() && nextId == old(nextId)
      ensures var found := FindOne(old(users), ByToken(code));
        && (found.None? ==> r == Err(InvalidVerificationToken) && users == old(users))
        && (found.Some? ==>
              && r == Ok(found.value)
              && users == old(users)[found.value := old(users)[found.value].(verified := true, verificationToken := None)])
    {
      var found := FindOne(users, ByToken(code));
      if found.None? {
        return Err(InvalidVerificationToken);
      }
      var k := found.value;
      users := users[k := users[k].(verified := true, verificationToken := None)];
      return Ok(k);
    }

    /**
     * `login`: only a verified record with the address can log in, and only
     * when `comparePassword` accepts the password; the result is the record
     * the session is issued for.
     */
    function Login(email: Option<string>, password: Option<string>, comparePassword: (User, string) -> bool)
      : (r: Result<nat, Error>)
      reads this
      ensures !Truthy(email) || !Truthy(password) ==> r == Err(AllFieldsRequired)
      ensures Truthy(email) && Truthy(password) && !IsValidEmail(email.value) ==> r == Err(InvalidEmailFormat)
      ensures r.Ok? ==>
        && r.value < |users| && users[r.value].verified && users[r.value].email == email.value
        && comparePassword(users[r.value], password.value)
      ensures Truthy(email) && Truthy(password) && IsValidEmail(email.value) ==>
        (r == Err(InvalidCredentials) <==>
          forall k :: 0 <= k < |users| && users[k].email == email.value ==> !users[k].verified)
      ensures (Truthy(email) && Truthy(password) && IsValidEmail(email.value)
               && FindOne(users, ByVerifiedEmail(email.value)).Some?) ==>
        var k := FindOne(users, ByVerifiedEmail(email.value)).value;
        r == (if comparePassword(users[k], password.value) then Ok(k) else Err(InvalidPassword))
      ensures r == Err(InvalidPassword) ==>
        exists k :: 0 <= k < |users| && users[k].email == email.value && users[k].verified
          && !comparePassword(users[k], password.value)
    {
      if !Truthy(email) || !Truthy(password) then Err(AllFieldsRequired)
      else if !IsValidEmail(email.value) then Err(InvalidEmailFormat)
      else match FindOne(users, ByVerifiedEmail(email.value))
        case None => Err(InvalidCredentials)
        case Some(k) => if comparePassword(users[k], password.value) then Ok(k) else Err(InvalidPassword)
    }

    /** `forgot`: a verified record with the address receives a new code; nothing else changes. */
    method Forgot(email: Option<string>, code: string) returns (r: Result<nat, Error>)
      requires Valid()
      modifies this
      ensures Valid() && nextId == old(nextId)
      ensures !Truthy(email) ==> r == Err(EmailRequired)
      ensures Truthy(email) && !IsValidEmail(email.value) ==> r == Err(InvalidEmailFormat)
      ensures r.Err? ==> users == old(users)
      ensures Truthy(email) && IsValidEmail(email.value) ==>
        var found := FindOne(old(users), ByVerifiedEmail(email.value));
        && (found.None? ==> r == Err(UnknownEmail))
        && (found.Some? ==>
              && r == Ok(found.value)
              && users == old(users)[found.value := old(users)[found.value].(verificationToken := Some(code))])
      ensures r.Ok? ==> r.value < |old(users)| && old(users)[r.value].verified
    {
      if !Truthy(email) {
        return Err(EmailRequired);
      }
      if !IsValidEmail(email.value) {
        return Err(InvalidEmailFormat);
      }
      var found := FindOne(users, ByVerifiedEmail(email.value));
      if found.None? {
        return Err(UnknownEmail);
      }
      var k := found.value;
      users := users[k := users[k].(verificationToken := Some(code))];
      return Ok(k);
    }

    /** `verifyForgot`: succeeds exactly when some record holds the code, and changes nothing. */
    function VerifyForgot(code: string): (r: Result<nat, Error>)
      reads this
      ensures r.Ok? ==> r.value < |users| && users[r.value].verificationToken == Some(code)
      ensures r.Err? <==> forall k :: 0 <= k < |users| ==> users[k].verificationToken != Some(code)
      ensures r.Err? ==> r.error == InvalidVerificationToken
    {
      match FindOne(users, ByToken(code))
      case None => Err(InvalidVerificationToken)
      case Some(k) => Ok(k)
    }

    /**
     * `NewPassword`: the record holding the code gets the new password and
     * loses the code, so when no other record held it the code fails from now on.
     */
    method NewPassword(password: string, code: string) returns (r: Result<nat, Error>)
      requires Valid()
      modifies this
      ensures Valid() && nextId == old(nextId)
      ensures var found := FindOne(old(users), ByToken(code));
        && (found.None? ==> r == Err(InvalidVerificationToken) && users == old(users))
        && (found.Some? ==>
              && r == Ok(found.value)
              && users == old(users)[found.value := old(users)[found.value].(password := password, verificationToken := None)])
      ensures r.Ok? && (forall k :: 0 <= k < |old(users)| && k != r.value ==> old(users)[k].verificationToken != Some(code)) ==>
        FindOne(users, ByToken(code)).None?
    {
      var found := FindOne(users, ByToken(code));
      if found.None? {
        return Err(InvalidVerificationToken);
      }
      var k := found.value;
      users := users[k := users[k].(password := password, verificationToken := None)];
      return Ok(k);
    }

    /**
     * `quizResult`: record an attempt of the user `userId` unless one with the
     * same key is already recorded; an accepted attempt goes at the end.
     */
    method QuizResult(userId: nat, quizName: Option<string>, obtainedMarks: Option<int>, totalMarks: Option<int>,
                      status: Option<string>, quizCode: Option<string>, className: Option<string>,
                      subject: Option<string>)
      returns (r: Result<QuizEntry, Error>)
      requires Valid()
      modifies this
      ensures Valid() && nextId == old(nextId)
      ensures !QuizFieldsPresent(quizName, obtainedMarks, totalMarks, status, quizCode, className, subject) ==>
        r == Err(AllFieldsRequired)
      ensures r.Err? ==> users == old(users)
      ensures QuizFieldsPresent(quizName, obtainedMarks, totalMarks, status, quizCode, className, subject) ==>
        var found := FindOne(old(users), ById(userId));
        var entry := QuizEntry(quizCode.value, className.value, subject.value, quizName.value,
                               obtainedMarks.value, totalMarks.value, status.value);
        && (found.None? ==> r == Err(UserNotFound))
        && (found.Some? ==>
              var u := old(users)[found.value];
              && (FindQuiz(u.quizzes, KeyOf(entry)).Some? ==> r == Err(AlreadyAttempted))
              && (FindQuiz(u.quizzes, KeyOf(entry)).None? ==>
                    && r == Ok(entry)
                    && users == old(users)[found.value := u.(quizzes := u.quizzes + [entry])]
                    && (KeysUnique(u.quizzes) ==> KeysUnique(users[found.value].quizzes))))
    {
      if !QuizFieldsPresent(quizName, obtainedMarks, totalMarks, status, quizCode, className, subject) {
        return Err(AllFieldsRequired);
      }
      var found := FindOne(users, ById(userId));
      if found.None? {
        return Err(UserNotFound);
      }
      var k := found.value;
      var entry := QuizEntry(quizCode.value, className.value, subject.value, quizName.value,
                             obtainedMarks.value, totalMarks.value, status.value);
      if FindQuiz(users[k].quizzes, KeyOf(entry)).Some? {
        return Err(AlreadyAttempted);
      }
      users := users[k := users[k].(quizzes := users[k].quizzes + [entry])];
      return Ok(entry);
    }

    /** `updateProfile`: a non-empty name or roll number replaces the stored one; nothing else changes. */
    method UpdateProfile(userId: nat, name: Option<string>, rollNumber: Option<string>) returns (r: Result<nat, Error>)
      requires Valid()
      modifies this
      ensures Valid() && nextId == old(nextId)
      ensures var found := FindOne(old(users), ById(userId));
        && (found.None? ==> r == Err(UserNotFound) && users == old(users))
        && (found.Some? ==>
              var u := old(users)[found.value];
              && r == Ok(found.value)
              && users == old(users)[found.value := u.(
                   name := if Truthy(name) then name.value else u.name,
                   rollNumber := if Truthy(rollNumber) then rollNumber else u.rollNumber)])
    {
      var found := FindOne(users, ById(userId));
      if found.None? {
        return Err(UserNotFound);
      }
      var k := found.value;
      var newName := if Truthy(name) then name.value else users[k].name;
      var newRollNumber := if Truthy(rollNumber) then rollNumber else users[k].rollNumber;
      users := users[k := users[k].(name := newName, rollNumber := newRollNumber)];
      return Ok(k);
    }
  }

  // ---------------------------------------------------------------------------
  // The verification life cycle, on a fresh collection

  /**
   * A registered account cannot log in before its code is verified, and a
   * second registration of the same address only resends a code; once
   * verified, the account logs in when `comparePassword` accepts the password
   * and the address can no longer be registered.
   */
  method SignUpThenLogIn(name: string, role: string, email: string, password: string, code: string,
                         comparePassword: (User, string) -> bool)
    returns (beforeVerifying: Result<nat, Error>, again: Result<Registration, Error>,
             afterVerifying: Result<nat, Error>, taken: Result<Registration, Error>, records: nat)
    requires name != "" && role != "" && password != "" && IsValidEmail(email)
    ensures beforeVerifying == Err(InvalidCredentials)
    ensures again == Ok(CodeResent)
    ensures afterVerifying ==
      if comparePassword(User(0, name, email, password, None, role, true, None, []), password)
      then Ok(0) else Err(InvalidPassword)
    ensures taken == Err(EmailAlreadyUsed)
    ensures records == 1
  {
    var store := new UserStore();
    var created := store.Register(Some(name), None, Some(role), Some(email), Some(password), code);
    assert store.users == [User(0, name, email, password, None, role, false, Some(code), [])];
    assert FindOne(store.users, ByVerifiedEmail(email)).None?;
    beforeVerifying := store.Login(Some(email), Some(password), comparePassword);
    again := store.Register(Some(name), None, Some(role), Some(email), Some(password), code);
    var verified := store.VerifyEmail(code);
    assert store.users == [User(0, name, email, password, None, role, true, None, [])];
    assert FindOne(store.users, ByVerifiedEmail(email)) == Some(0);
    afterVerifying := store.Login(Some(email), Some(password), comparePassword);
    taken := store.Register(Some(name), None, Some(role), Some(email), Some(password), code);
    records := |store.users|;
  }

  /**
   * The forgotten-password flow on a verified account: the reset code checks
   * out and sets the new password once; the same code fails afterwards.
   */
  method ResetCodeIsSingleUse(name: string, role: string, email: string, password: string, code: string,
                              resetCode: string, newPassword: string)
    returns (requested: Result<nat, Error>, checked: Result<nat, Error>, first: Result<nat, Error>,
             second: Result<nat, Error>, stored: string)
    requires name != "" && role != "" && password != "" && IsValidEmail(email)
    ensures requested == Ok(0) && checked == Ok(0) && first == Ok(0)
    ensures second == Err(InvalidVerificationToken)
    ensures stored == newPassword
  {
    var store := new UserStore();
    var created := store.Register(Some(name), None, Some(role), Some(email), Some(password), code);
    assert store.users == [User(0, name, email, password, None, role, false, Some(code), [])];
    var verified := store.VerifyEmail(code);
    assert store.users == [User(0, name, email, password, None, role, true, None, [])];
    requested := store.Forgot(Some(email), resetCode);
    checked := store.VerifyForgot(resetCode);
    first := store.NewPassword(newPassword, resetCode);
    assert store.users == [User(0, name, email, newPassword, None, role, true, None, [])];
    second := store.NewPassword(newPassword, resetCode);
    stored := store.users[0].password;
  }
}
