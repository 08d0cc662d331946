/**
 * The auth service: victim login by OTP with auto-registration, responder registration,
 * and responder login with hardware binding and attempt counting. Each writes the user
 * or responder table and appends to the audit log. Hashing and password comparison
 * are parameters (bcrypt is not modelled); a token is represented by its claims.
 */
module Auth {
  import opened Wrappers
  import opened Entities
  import opened Sequences
  import opened Database
  import Strings

  const MockOtp: string := "123456"
  const CitizenPrefix: string := "Citizen_"

  datatype AuthError = InvalidOtp | BadgeTaken | PhoneTaken | CredentialsMismatch | DeviceMismatch | PasswordHashMissing

  /** The claims a token is signed over: {id, type, role?}. */
  datatype TokenClaims = TokenClaims(id: Id, kind: string, role: Option<string>)

  /** The name of an auto-registered victim: "Citizen_" and the phone's last four characters. */
  function CitizenName(phone: string): (r: string)
    ensures Strings.StartsWith(r, CitizenPrefix)
    ensures |r| == |CitizenPrefix| + Min(|phone|, 4)
    ensures r[|CitizenPrefix|..] == phone[|phone| - Min(|phone|, 4)..]
  {
    var tail := KeepLast(phone, 4);
    assert (CitizenPrefix + tail)[|CitizenPrefix|..] == tail;
    CitizenPrefix + tail
  }

  /** The user `victimLogin` registers for an unknown phone. */
  function NewCitizen(id: Id, phone: string): (u: User)
    ensures u.id == id && u.phone == phone && u.name == CitizenName(phone) && u.status == AccountActive
    ensures u.loginAttempts == 0 && u.lastLoginAt.None?
    ensures u.nik.None? && u.bloodType.None? && u.address.None?
  {
    User(id, phone, CitizenName(phone), AccountActive, None, None, None, None, 0)
  }

  /** `findOneBy({ phone })` on the user table. */
  function UserByPhone(rows: seq<User>, phone: string): (r: Option<nat>)
    ensures r.Some? ==> r.value < |rows| && rows[r.value].phone == phone
    ensures r.None? <==> forall k :: 0 <= k < |rows| ==> rows[k].phone != phone
  {
    FindFirst(rows, (u: User) => u.phone == phone)
  }

  /** The OTP check: only the mock code passes, except in the test environment where any does. */
  predicate OtpAccepted(otp: string, testEnv: bool) {
    otp == MockOtp || testEnv
  }

  /**
   * victimLogin. An unknown phone is registered before the OTP is checked, so a wrong
   * OTP still leaves the new user behind; it is logged as LOGIN_FAILED_OTP. A
   * successful login clears the attempt counter, stamps the login time, logs REGISTER
   * for a new user and LOGIN otherwise, and yields a victim token.
   */
  method VictimLogin(db: Store, phone: string, otp: string, deviceId: Option<string>, testEnv: bool,
                     newId: Id, now: Time) returns (r: Result<TokenClaims, AuthError>)
    requires db.Valid()
    requires forall u :: u in db.users ==> u.id != newId
    modifies db`users, db`audit
    ensures db.Valid()
    ensures var pos := UserByPhone(old(db.users), phone);
            var registered := if pos.None? then old(db.users) + [NewCitizen(newId, phone)] else old(db.users);
            var k := if pos.None? then |old(db.users)| else pos.value;
            var uid := registered[k].id;
            && (!OtpAccepted(otp, testEnv) ==>
                  && r == Err(InvalidOtp)
                  && db.users == registered
                  && db.audit == old(db.audit) + [AuditEntry(Some(uid), "victim", LoginFailedOtp, deviceId)])
            && (OtpAccepted(otp, testEnv) ==>
                  && r == Ok(TokenClaims(uid, "victim", None))
                  && db.users == registered[k := registered[k].(lastLoginAt := Some(now), loginAttempts := 0)]
                  && db.audit == old(db.audit) + [AuditEntry(Some(uid), "victim", if pos.None? then Register else Login, deviceId)])
  {
    var pos := UserByPhone(db.users, phone);
    var isNew := pos.None?;
    var k: nat;
    if isNew {
      AppendKeepsUserIds(db.users, NewCitizen(newId, phone));
      db.users := db.users + [NewCitizen(newId, phone)];
      k := |db.users| - 1;
    } else {
      k := pos.value;
    }
    var user := db.users[k];
    if !OtpAccepted(otp, testEnv) {
      db.audit := db.audit + [AuditEntry(Some(user.id), "victim", LoginFailedOtp, deviceId)];
      return Err(InvalidOtp);
    }
    ReplaceKeepsUserIds(db.users, k, user.(lastLoginAt := Some(now), loginAttempts := 0));
    db.users := db.users[k := user.(lastLoginAt := Some(now), loginAttempts := 0)];
    db.audit := db.audit + [AuditEntry(Some(user.id), "victim", if isNew then Register else Login, deviceId)];
    r := Ok(TokenClaims(user.id, "victim", None));
  }

  /** `findOneBy({ badge_number })` on the responder table. */
  function ResponderByBadge(rows: seq<Responder>, badge: string): (r: Option<nat>)
    ensures r.Some? ==> r.value < |rows| && rows[r.value].badgeNumber == Some(badge)
    ensures r.None? <==> forall k :: 0 <= k < |rows| ==> rows[k].badgeNumber != Some(badge)
  {
    FindFirst(rows, (x: Responder) => x.badgeNumber == Some(badge))
  }

  /** `findOneBy({ phone })` on the responder table. */
  function ResponderByPhone(rows: seq<Responder>, phone: string): (r: Option<nat>)
    ensures r.Some? ==> r.value < |rows| && rows[r.value].phone == phone
    ensures r.None? <==> forall k :: 0 <= k < |rows| ==> rows[k].phone != phone
  {
    FindFirst(rows, (x: Responder) => x.phone == phone)
  }

  /**
   * registerResponder: a badge already on file is refused with nothing written; a phone
   * already on file makes the save violate the unique phone column, which throws before
   * the audit entry, so nothing is written either; otherwise the new responder (off
   * duty, active, no attempts, the password's hash, name upper-cased by the insert
   * listener) is stored and the registration is logged against the admin.
   */
  method RegisterResponder(db: Store, adminId: Id, badge: string, name: string, phone: string, kind: string,
                           department: Option<string>, password: string, hash: string -> string, newId: Id)
    returns (r: Result<Responder, AuthError>)
    requires db.Valid()
    requires forall x :: x in db.responders ==> x.id != newId
    modifies db`responders, db`audit
    ensures db.Valid()
    ensures ResponderByBadge(old(db.responders), badge).Some? ==>
              r == Err(BadgeTaken) && db.responders == old(db.responders) && db.audit == old(db.audit)
    ensures ResponderByBadge(old(db.responders), badge).None? && (exists x :: x in old(db.responders) && x.phone == phone) ==>
              r == Err(PhoneTaken) && db.responders == old(db.responders) && db.audit == old(db.audit)
    ensures ResponderByBadge(old(db.responders), badge).None? && (forall x :: x in old(db.responders) ==> x.phone != phone) ==>
              var saved := HandleNameCase(NewResponder(newId, name, phone, badge, kind, department, hash(password)));
              && r == Ok(saved)
              && db.responders == old(db.responders) + [saved]
              && db.audit == old(db.audit) + [AuditEntry(Some(adminId), "system", ResponderRegistered, None)]
    ensures r.Ok? ==> r.value.status == OffDuty && r.value.isActive && r.value.loginAttempts == 0 &&
                      r.value.totalIncidentsHandled == 0 && r.value.badgeNumber == Some(badge) &&
                      r.value.phone == phone && r.value.passwordHash == Some(hash(password)) && r.value.deviceId.None?
  {
    if ResponderByBadge(db.responders, badge).Some? {
      return Err(BadgeTaken);
    }
    var saved := HandleNameCase(NewResponder(newId, name, phone, badge, kind, department, hash(password)));
    var taken := ResponderByPhone(db.responders, phone);
    if taken.Some? {
      assert db.responders[taken.value] in db.responders;
      return Err(PhoneTaken);
    }
    AppendKeepsResponderIds(db.responders, saved);
    db.responders := db.responders + [saved];
    db.audit := db.audit + [AuditEntry(Some(adminId), "system", ResponderRegistered, None)];
    r := Ok(saved);
  }

  /** The login lookup: the first responder whose badge number or phone is the identifier. */
  function ResponderByIdentifier(rows: seq<Responder>, identifier: string): (r: Option<nat>)
    ensures r.Some? ==> r.value < |rows| &&
                        (rows[r.value].badgeNumber == Some(identifier) || rows[r.value].phone == identifier)
    ensures r.None? <==> forall k :: 0 <= k < |rows| ==>
                           !(rows[k].badgeNumber == Some(identifier) || rows[k].phone == identifier)
  {
    FindFirst(rows, (x: Responder) => x.badgeNumber == Some(identifier) || x.phone == identifier)
  }

  /** An audit entry of a login attempt on responder `x` from `deviceId`. */
  function Entry(x: Responder, deviceId: string, action: AuditAction): AuditEntry {
    AuditEntry(Some(x.id), "responder", action, Some(deviceId))
  }

  /** A bound device that is not the presented one. */
  predicate BoundElsewhere(x: Responder, deviceId: string) {
    Truthy(x.deviceId) && x.deviceId.value != deviceId
  }

  /** The row a successful login saves: bound to the device if unbound, attempts cleared, login stamped. */
  function LoggedIn(x: Responder, deviceId: string, now: Time): (r: Responder)
    ensures Truthy(x.deviceId) ==> r.deviceId == x.deviceId
    ensures !Truthy(x.deviceId) ==> r.deviceId == Some(deviceId)
    ensures r.loginAttempts == 0 && r.lastLoginAt == Some(now)
    ensures r == HandleNameCase(x).(deviceId := r.deviceId, loginAttempts := 0, lastLoginAt := r.lastLoginAt)
  {
    var bound := if Truthy(x.deviceId) then x.deviceId else Some(deviceId);
    HandleNameCase(x.(deviceId := bound, loginAttempts := 0, lastLoginAt := Some(now)))
  }

  /**
   * responderLogin. An unknown identifier is refused with nothing written. A device
   * other than the bound one is logged as a security alert and refused without touching
   * the attempt counter. A missing hash makes the comparison throw, with nothing written.
   * A wrong password adds exactly one attempt and is logged. Otherwise the row is saved
   * as LoggedIn describes (an unbound account is bound and the binding logged), the
   * login is logged, and a responder token carrying the responder's type is issued.
   */
  method ResponderLogin(db: Store, identifier: string, password: string, deviceId: string,
                        matches: (string, string) -> bool, now: Time) returns (r: Result<TokenClaims, AuthError>)
    requires db.Valid()
    modifies db`responders, db`audit
    ensures db.Valid()
    ensures ResponderByIdentifier(old(db.responders), identifier).None? ==>
              r == Err(CredentialsMismatch) && db.responders == old(db.responders) && db.audit == old(db.audit)
    ensures ResponderByIdentifier(old(db.responders), identifier).Some? ==>
              var k := ResponderByIdentifier(old(db.responders), identifier).value;
              var x := old(db.responders)[k];
              && (BoundElsewhere(x, deviceId) ==>
                    && r == Err(DeviceMismatch) && db.responders == old(db.responders)
                    && db.audit == old(db.audit) + [Entry(x, deviceId, SecurityAlertDeviceMismatch)])
              && (!BoundElsewhere(x, deviceId) && x.passwordHash.None? ==>
                    r == Err(PasswordHashMissing) && db.responders == old(db.responders) && db.audit == old(db.audit))
              && (!BoundElsewhere(x, deviceId) && x.passwordHash.Some? && !matches(password, x.passwordHash.value) ==>
                    && r == Err(CredentialsMismatch)
                    && db.responders == old(db.responders)[k := x.(loginAttempts := x.loginAttempts + 1)]
                    && db.audit == old(db.audit) + [Entry(x, deviceId, LoginFailedCred)])
              && (!BoundElsewhere(x, deviceId) && x.passwordHash.Some? && matches(password, x.passwordHash.value) ==>
                    && r == Ok(TokenClaims(x.id, "responder", Some(x.kind)))
                    && db.responders == old(db.responders)[k := LoggedIn(x, deviceId, now)]
                    && db.audit == old(db.audit) + (if Truthy(x.deviceId) then [] else [Entry(x, deviceId, DeviceBound)]) + [Entry(x, deviceId, Login)])
  {
    var pos := ResponderByIdentifier(db.responders, identifier);
    if pos.None? {
      return Err(CredentialsMismatch);
    }
    var k := pos.value;
    var x := db.responders[k];
    if BoundElsewhere(x, deviceId) {
      db.audit := db.audit + [Entry(x, deviceId, SecurityAlertDeviceMismatch)];
      return Err(DeviceMismatch);
    }
    if x.passwordHash.None? {
      return Err(PasswordHashMissing);
    }
    if !matches(password, x.passwordHash.value) {
      ReplaceKeepsResponderIds(db.responders, k, x.(loginAttempts := x.loginAttempts + 1));
      db.responders := db.responders[k := x.(loginAttempts := x.loginAttempts + 1)];
      db.audit := db.audit + [Entry(x, deviceId, LoginFailedCred)];
      return Err(CredentialsMismatch);
    }
    var bindings: seq<AuditEntry> := [];
    if !Truthy(x.deviceId) {
      bindings := [Entry(x, deviceId, DeviceBound)];
    }
    ReplaceKeepsResponderIds(db.responders, k, LoggedIn(x, deviceId, now));
    db.responders := db.responders[k := LoggedIn(x, deviceId, now)];
    db.audit := db.audit + bindings + [Entry(x, deviceId, Login)];
    r := Ok(TokenClaims(x.id, "responder", Some(x.kind)));
  }

  /** A successful login never rebinds a bound account, and repeating it at the same moment changes nothing more. */
  lemma BindingIsPermanent(x: Responder, deviceId: string, now: Time)
    requires Truthy(x.deviceId)
    ensures LoggedIn(x, deviceId, now).deviceId == x.deviceId
    ensures LoggedIn(LoggedIn(x, deviceId, now), deviceId, now) == LoggedIn(x, deviceId, now)
  {
    HandleNameCaseIdempotent(x.(loginAttempts := 0, lastLoginAt := Some(now)));
  }
}
