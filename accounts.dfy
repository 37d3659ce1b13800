/** Worker and employer accounts: the registration guards and the login checks that
    backend/controllers/userController.js and backend/controllers/employerController.js share.
    `validator.isEmail`, `bcrypt.hash` and `bcrypt.compare` are foreign code and arrive as
    parameters; the signed token is not modelled. */
module Accounts {
  import opened Outcomes

  /** What distinguishes the two kinds of account. */
  datatype Profile =
    | EmployerProfile(company: string)
    | WorkerProfile(name: string, verified: bool, status: string,
                    documentVerificationStatus: string, skillCertificatePresent: bool)

  /** A stored account; `password` holds the hash, never the password itself. */
  datatype Account = Account(email: string, password: string, isActive: bool, profile: Profile)

  /** `findOne({ email })`: the index of the first account registered under `email`. */
  function FindByEmail(accounts: seq<Account>, email: string): (r: Option<nat>)
    ensures r.None? <==> forall i :: 0 <= i < |accounts| ==> accounts[i].email != email
    ensures r.Some? ==> r.value < |accounts| && accounts[r.value].email == email
    ensures r.Some? ==> forall i :: 0 <= i < r.value ==> accounts[i].email != email
  {
    if accounts == [] then None
    else if accounts[0].email == email then Some(0)
    else match FindByEmail(accounts[1..], email)
      case None => None
      case Some(i) => Some(i + 1)
  }

  /** No two accounts share an email (the collections' unique index). */
  predicate UniqueEmails(accounts: seq<Account>) {
    forall i, j :: 0 <= i < j < |accounts| ==> accounts[i].email != accounts[j].email
  }

  /** The 400 answers of registration: a missing name (or company), email or password, an
      email `isEmail` refuses, a password shorter than 8 characters. */
  predicate Malformed(name: string, email: string, password: string, isEmail: string -> bool) {
    name == "" || email == "" || password == "" || !isEmail(email) || |password| < 8
  }

  /** Registration under `email`: the guards, then the new account appended, never active. */
  function Register(accounts: seq<Account>, name: string, email: string, password: string,
                    profile: Profile, isEmail: string -> bool, hash: string -> string)
    : (r: Outcome<seq<Account>>)
    ensures r == Fail(BadRequest) <==> Malformed(name, email, password, isEmail)
    ensures r == Fail(Conflict) <==>
      !Malformed(name, email, password, isEmail) && exists a :: a in accounts && a.email == email
    ensures r.Fail? ==> r.status == BadRequest || r.status == Conflict
    ensures r.Ok? ==> |r.value| == |accounts| + 1 && r.value[..|accounts|] == accounts
    ensures r.Ok? ==> r.value[|accounts|] == Account(email, hash(password), false, profile)
  {
    if Malformed(name, email, password, isEmail) then Fail(BadRequest)
    else if FindByEmail(accounts, email).Some? then
      assert accounts[FindByEmail(accounts, email).value] in accounts;
      Fail(Conflict)
    else Ok(accounts + [Account(email, hash(password), false, profile)])
  }

  /** Login: the account found by email, its password hash checked by `compare`, and only an
      active account let in; every refusal is a 401. */
  function Login(accounts: seq<Account>, email: string, password: string,
                 compare: (string, string) -> bool): (r: Outcome<Account>)
    ensures r.Fail? ==> r.status == Unauthorized
    ensures r.Ok? ==> r.value in accounts && r.value.email == email
    ensures r.Ok? ==> r.value.isActive && compare(password, r.value.password)
  {
    match FindByEmail(accounts, email)
    case None => Fail(Unauthorized)
    case Some(i) =>
      if !compare(password, accounts[i].password) then Fail(Unauthorized)
      else if !accounts[i].isActive then Fail(Unauthorized)
      else Ok(accounts[i])
  }

  /** With unique emails, login succeeds exactly for an active account under that email whose
      hash `compare` accepts; an inactive account is refused even with the right password. */
  lemma LoginSpec(accounts: seq<Account>, email: string, password: string,
                  compare: (string, string) -> bool)
    requires UniqueEmails(accounts)
    ensures Login(accounts, email, password, compare).Ok? <==>
      exists a :: a in accounts && a.email == email && a.isActive && compare(password, a.password)
  {
    if a :| a in accounts && a.email == email && a.isActive && compare(password, a.password) {
      var k :| 0 <= k < |accounts| && accounts[k] == a;
      var i := FindByEmail(accounts, email).value;
      assert i == k by {
        if i < k {
          assert accounts[i].email == accounts[k].email;
        }
      }
    }
  }

  /** A successful registration keeps emails unique, and the new account is the one found
      under its email. */
  lemma {:induction false} RegisterKeepsEmailsUnique(accounts: seq<Account>, name: string,
      email: string, password: string, profile: Profile, isEmail: string -> bool,
      hash: string -> string)
    requires UniqueEmails(accounts)
    requires Register(accounts, name, email, password, profile, isEmail, hash).Ok?
    ensures UniqueEmails(Register(accounts, name, email, password, profile, isEmail, hash).value)
    ensures FindByEmail(Register(accounts, name, email, password, profile, isEmail, hash).value,
                        email) == Some(|accounts|)
  {
    var r := Register(accounts, name, email, password, profile, isEmail, hash).value;
    forall i | 0 <= i < |accounts| ensures r[i] == accounts[i] && accounts[i].email != email {
      assert accounts[i] in accounts;
    }
  }

  /** A freshly registered account cannot log in, whatever password is given, until it is
      activated. */
  lemma {:induction false} RegisterThenLoginRefused(accounts: seq<Account>, name: string,
      email: string, password: string, profile: Profile, isEmail: string -> bool,
      hash: string -> string, attempt: string, compare: (string, string) -> bool)
    requires Register(accounts, name, email, password, profile, isEmail, hash).Ok?
    ensures Login(Register(accounts, name, email, password, profile, isEmail, hash).value,
                  email, attempt, compare) == Fail(Unauthorized)
  {
    var r := Register(accounts, name, email, password, profile, isEmail, hash).value;
    forall i | 0 <= i < |accounts| ensures r[i].email != email {
      assert r[i] == accounts[i] && accounts[i] in accounts;
    }
  }
}
