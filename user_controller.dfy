/** The worker endpoints of backend/controllers/userController.js: registration with the new
    account's defaults, and the payload `updateProfile` writes. Login is `Accounts.Login`;
    document upload and delete are `Documents.DocumentStore.Upload` and `.Delete`. */
module UserController {
  import opened Outcomes
  import opened JsValues
  import opened Accounts

  /** `registerUser`: the shared registration guards; a new worker is unverified, pending,
      inactive, with documents pending and no skill certificate. */
  function RegisterUser(accounts: seq<Account>, name: string, email: string, password: string,
                        isEmail: string -> bool, hash: string -> string)
    : (r: Outcome<seq<Account>>)
    ensures r.Fail? <==> Malformed(name, email, password, isEmail) ||
                         exists a :: a in accounts && a.email == email
    ensures r.Ok? ==> |r.value| == |accounts| + 1 && r.value[..|accounts|] == accounts
    ensures r.Ok? ==> (r.value[|accounts|] ==
      Account(email, hash(password), false, WorkerProfile(name, false, "pending", "pending", false)))
  {
    Register(accounts, name, email, password,
             WorkerProfile(name, false, "pending", "pending", false), isEmail, hash)
  }

  /** A value of the update payload: `undefined`, a body value, or a parsed date (its time
      value in milliseconds). */
  datatype Value = Undefined | Plain(json: Json) | DateAt(time: real)

  /** `body[k]` as it lands in the payload. */
  function Read(body: map<string, Json>, k: string): Value {
    if k in body then Plain(body[k]) else Undefined
  }

  /** The fields the payload copies as written: `gender` is destructured but not copied. */
  const AsWrittenFields: set<string> :=
    {"name", "phone", "address", "skills", "originState", "originDistrict", "currentState",
     "currentDistrict", "presentCity", "experience"}

  /** The fields the profile form sends and the user schema stores. */
  const ProfileFields: set<string> := AsWrittenFields + {"gender"}

  /** Fields an account must never take from its owner's profile edit. */
  const ProtectedFields: set<string> :=
    {"email", "password", "isActive", "verified", "status", "role", "documentVerificationStatus",
     "skillCertificatePresent"}

  /** `typeof dob !== "undefined" && dob !== null && dob !== ""` and `new Date(dob)` valid;
      `parseDate` stands for `new Date(..).getTime()`. */
  predicate DobUsable(body: map<string, Json>, parseDate: Json -> JsNumber) {
    "dob" in body && body["dob"] != JNull && body["dob"] != JStr("") && parseDate(body["dob"]).Num?
  }

  /** The payload built from `fields`, then `dob` when usable and `image` when truthy. */
  function Payload(body: map<string, Json>, parseDate: Json -> JsNumber, fields: set<string>)
    : map<string, Value>
  {
    var copied := map k | k in fields :: Read(body, k);
    var withDob := if DobUsable(body, parseDate) then copied["dob" := DateAt(parseDate(body["dob"]).value)]
                   else copied;
    if Defined(Field(body, "image")) then withDob["image" := Plain(body["image"])] else withDob
  }

  /** Every copied field is in the payload, present in the body or not; `dob` only when it is
      given, not null, not "" and parses; `image` only when truthy; nothing else. */
  lemma PayloadSpec(body: map<string, Json>, parseDate: Json -> JsNumber, fields: set<string>)
    requires "dob" !in fields && "image" !in fields
    ensures forall k :: k in Payload(body, parseDate, fields) <==>
      k in fields || (k == "dob" && DobUsable(body, parseDate)) ||
      (k == "image" && Defined(Field(body, "image")))
    ensures forall k :: k in fields ==> Payload(body, parseDate, fields)[k] == Read(body, k)
    ensures "dob" in Payload(body, parseDate, fields) ==>
      Payload(body, parseDate, fields)["dob"] == DateAt(parseDate(body["dob"]).value)
    ensures "image" in Payload(body, parseDate, fields) ==>
      Payload(body, parseDate, fields)["image"] == Plain(body["image"])
  {
  }

  /** As written, a profile edit never carries `gender`, whatever the body sends. */
  function PayloadAsWritten(body: map<string, Json>, parseDate: Json -> JsNumber)
    : (p: map<string, Value>)
    ensures "gender" !in p
  {
    Payload(body, parseDate, AsWrittenFields)
  }

  /** The form's gender choice is dropped by the payload as written. */
  lemma GenderDroppedAsWritten(parseDate: Json -> JsNumber)
    ensures var body := map["name" := JStr("Asha"), "gender" := JStr("female")];
      "gender" in body && "gender" !in PayloadAsWritten(body, parseDate)
  {
  }

  /** A profile edit never touches the account's email, password, activation or
      verification fields, and it saves the form's gender. */
  lemma ProfilePayloadSafe(body: map<string, Json>, parseDate: Json -> JsNumber)
    ensures ProtectedFields !! Payload(body, parseDate, ProfileFields).Keys
    ensures Payload(body, parseDate, ProfileFields)["gender"] == Read(body, "gender")
  {
    PayloadSpec(body, parseDate, ProfileFields);
    ProtectedNotEditable();
  }

  lemma ProtectedNotEditable()
    ensures forall k :: k in ProtectedFields ==> k !in ProfileFields && k != "dob" && k != "image"
  {
  }

  /** `updateProfile`'s payload, with `gender` copied like the other form fields. */
  method ProfilePayload(body: map<string, Json>, parseDate: Json -> JsNumber)
    returns (payload: map<string, Value>)
    ensures payload == Payload(body, parseDate, ProfileFields)
  {
    payload := map k | k in ProfileFields :: Read(body, k);
    if "dob" in body && body["dob"] != JNull && body["dob"] != JStr("") {
      var parsed := parseDate(body["dob"]);
      if parsed.Num? {
        payload := payload["dob" := DateAt(parsed.value)];
      }
    }
    if Defined(Field(body, "image")) {
      payload := payload["image" := Plain(body["image"])];
    }
  }

  /** `dob` of `false` or `0` passes the guard, so it is stored when it parses (as the epoch,
      for `new Date(0)`), while "" and null never are. */
  lemma DobGuardExamples(parseDate: Json -> JsNumber)
    requires parseDate(JNum(0.0)) == Num(0.0)
    ensures Payload(map["dob" := JNum(0.0)], parseDate, ProfileFields)["dob"] == DateAt(0.0)
    ensures "dob" !in Payload(map["dob" := JStr("")], parseDate, ProfileFields)
    ensures "dob" !in Payload(map["dob" := JNull], parseDate, ProfileFields)
  {
    PayloadSpec(map["dob" := JNum(0.0)], parseDate, ProfileFields);
    PayloadSpec(map["dob" := JStr("")], parseDate, ProfileFields);
    PayloadSpec(map["dob" := JNull], parseDate, ProfileFields);
  }
}
