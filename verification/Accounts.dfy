// security/auth_controller.py: registering and authenticating accounts, and
// carrying the vault master key through every change of credentials.

module Accounts {
  import opened Results
  import opened ByteStrings
  import opened Lockout
  import opened VaultKeys
  import Metadata
  import TamperEvidentLog

  const MIN_PASSWORD_LENGTH: nat := 8

  /** A scrypt digest; keyWrapSalt is missing on accounts older than vault keys. */
  datatype PasswordCredential = PasswordCredential(salt: nat, digest: Secret, keyWrapSalt: Option<nat>)

  datatype Credential =
    | ByPassword(password: PasswordCredential)
    | ByPrivateKey(publicKey: nat, wrapSalt: Option<nat>)

  datatype Account = Account(
    credential: Credential, lock: LockState, lastLoginAt: Option<Instant>, recovery: Option<PasswordCredential>)

  predicate Matches(secret: string, c: PasswordCredential) {
    Scrypt(secret, c.salt) == c.digest
  }

  function Hashed(secret: string, salt: nat, keyWrapSalt: nat): PasswordCredential {
    PasswordCredential(salt, Scrypt(secret, salt), Some(keyWrapSalt))
  }

  /** The random values one operation may consume. */
  datatype CredentialDraws = CredentialDraws(
    salt: nat, keyWrapSalt: nat, recoverySalt: nat, recoveryWrapSalt: nat, recoveryCode: string, keys: Draws)

  datatype AuthError = AlreadyExists | NotFound | AccountLocked | InvalidCredentials | WeakPassword

  datatype Outcome =
    | SignedIn(vaultKey: Secret)
    | DecoySession
    | Confirmed
    | NewRecoveryCode(code: string)
    | Failed(error: AuthError)

  /** The two readings of the clock: at the lockout gate, and when the result is recorded. */
  datatype Clocks = Clocks(gateAt: Instant, recordedAt: Instant)

  /** The operations that prove a credential. */
  datatype Operation =
    | Login(password: string)
    | LoginWithKey(keyPair: nat, passphrase: Bytes, unlocks: bool)
    | ChangePassword(current: string, newPassword: string)
    | VerifyPassword(current: string)
    | DeleteAccount(current: string)
    | ResetPassword(code: string, newPassword: string)

  /** What the installation keeps: accounts and, with a database, its key rows, metadata
      records and usage log. */
  datatype Stored = Stored(rows: Meta, records: Metadata.Table, log: seq<TamperEvidentLog.Entry>)
  datatype State = State(accounts: map<string, Account>, database: Option<Stored>)

  // ---- One operation, as a function ----------------------------------------------------

  predicate RightMethod(c: Credential, op: Operation) {
    op.LoginWithKey? <==> c.ByPrivateKey?
  }

  predicate Proves(acc: Account, op: Operation)
    requires RightMethod(acc.credential, op)
  {
    match op
    case Login(p) => Matches(p, acc.credential.password)
    case LoginWithKey(keyPair, _, unlocks) => unlocks && keyPair == acc.credential.publicKey
    case ChangePassword(current, _) => Matches(current, acc.credential.password)
    case VerifyPassword(current) => Matches(current, acc.credential.password)
    case DeleteAccount(current) => Matches(current, acc.credential.password)
    case ResetPassword(code, _) => acc.recovery.Some? && Matches(code, acc.recovery.value)
  }

  function Put(s: State, owner: string, acc: Account): State {
    s.(accounts := s.accounts[owner := acc])
  }

  function AfterWrong(acc: Account, now: Instant): Account {
    acc.(lock := AfterFailure(acc.lock, now))
  }

  function AfterRight(acc: Account, now: Instant): Account {
    acc.(lock := Clear, lastLoginAt := Some(now))
  }

  /** A missing wrap salt is drawn once, at the first successful login. */
  function Healed(acc: Account, drawn: nat): Account {
    match acc.credential
    case ByPassword(c) =>
      if c.keyWrapSalt.None? then acc.(credential := ByPassword(c.(keyWrapSalt := Some(drawn)))) else acc
    case ByPrivateKey(publicKey, wrapSalt) =>
      if wrapSalt.None? then acc.(credential := ByPrivateKey(publicKey, Some(drawn))) else acc
  }

  function WrapSalt(c: Credential): Option<nat> {
    match c
    case ByPassword(p) => p.keyWrapSalt
    case ByPrivateKey(_, wrapSalt) => wrapSalt
  }

  /** The account with a new password and a new recovery code, counters cleared. */
  function Rotated(acc: Account, newPassword: string, d: CredentialDraws, now: Instant): Account {
    AfterRight(
      acc.(credential := ByPassword(Hashed(newPassword, d.salt, d.keyWrapSalt)),
           recovery := Some(Hashed(d.recoveryCode, d.recoverySalt, d.recoveryWrapSalt))), now)
  }

  function Rewrapped(m: Meta, oldVmk: Option<Secret>, newPassword: string, d: CredentialDraws): Meta {
    var vaultKey, recoveryKey := Scrypt(newPassword, d.keyWrapSalt), Scrypt(d.recoveryCode, d.recoveryWrapSalt);
    if oldVmk.Some? then
      SaveWrapped(SaveWrapped(m, PasswordSlot, oldVmk.value, vaultKey, d.keys.passwordNonce),
                  RecoverySlot, oldVmk.value, recoveryKey, d.keys.recoveryNonce)
    else Established(m, vaultKey, recoveryKey, d.keys)
  }

  function RewrappedDatabase(
    db: Option<Stored>, oldVmk: Option<Secret>, newPassword: string, d: CredentialDraws): Option<Stored>
  {
    if db.None? then None else Some(db.value.(rows := Rewrapped(db.value.rows, oldVmk, newPassword, d)))
  }

  /** The master key reachable through a slot before its secret is replaced. */
  function ReachableVmk(db: Option<Stored>, slot: Slot, secret: string, c: PasswordCredential): Option<Secret> {
    if db.None? || c.keyWrapSalt.None? then None
    else LoadWrapped(db.value.rows, slot, Scrypt(secret, c.keyWrapSalt.value))
  }

  /** The effect of an operation whose credential was right. */
  function Succeeded(s: State, owner: string, acc: Account, op: Operation, now: Instant, d: CredentialDraws)
    : (State, Outcome)
    requires RightMethod(acc.credential, op) && Proves(acc, op)
  {
    match op
    case Login(password) =>
      var healed := Healed(acc, d.keyWrapSalt);
      (Put(s, owner, AfterRight(healed, now)), SignedIn(Scrypt(password, WrapSalt(healed.credential).value)))
    case LoginWithKey(keyPair, passphrase, _) =>
      var healed := Healed(acc, d.keyWrapSalt);
      (Put(s, owner, AfterRight(healed, now)), SignedIn(ScryptKey(keyPair, passphrase, WrapSalt(healed.credential).value)))
    case VerifyPassword(_) => (Put(s, owner, AfterRight(acc, now)), Confirmed)
    case DeleteAccount(_) =>
      (State(s.accounts - {owner},
             if s.database.None? then None else Some(s.database.value.(records := map[], log := []))), Confirmed)
    case ChangePassword(current, newPassword) =>
      Replaced(s, owner, acc, ReachableVmk(s.database, PasswordSlot, current, acc.credential.password), newPassword, now, d)
    case ResetPassword(code, newPassword) =>
      Replaced(s, owner, acc, ReachableVmk(s.database, RecoverySlot, code, acc.recovery.value), newPassword, now, d)
  }

  /** A weak new password is refused after the old one was proved, with nothing saved. */
  function Replaced(
    s: State, owner: string, acc: Account, oldVmk: Option<Secret>, newPassword: string, now: Instant,
    d: CredentialDraws): (State, Outcome)
  {
    if |newPassword| < MIN_PASSWORD_LENGTH then (s, Failed(WeakPassword))
    else (State(s.accounts[owner := Rotated(acc, newPassword, d, now)],
                RewrappedDatabase(s.database, oldVmk, newPassword, d)),
          NewRecoveryCode(d.recoveryCode))
  }

  predicate IsLogin(op: Operation) {
    op.Login? || op.LoginWithKey?
  }

  function Perform(s: State, owner: string, op: Operation, t: Clocks, d: CredentialDraws): (State, Outcome) {
    if owner !in s.accounts then (s, Failed(NotFound))
    else
      var acc := s.accounts[owner];
      if Locked(acc.lock, t.gateAt) then (s, Failed(AccountLocked))
      else if !RightMethod(acc.credential, op) then
        (Put(s, owner, AfterWrong(acc, t.recordedAt)), Failed(InvalidCredentials))
      else if !Proves(acc, op) then
        (Put(s, owner, AfterWrong(acc, t.recordedAt)), if IsLogin(op) then DecoySession else Failed(InvalidCredentials))
      else Succeeded(s, owner, acc, op, t.recordedAt, d)
  }

  // ---- What the operations mean, over the stored account alone ---------------------------

  /** The account exists and its deadline, if any, has passed. */
  predicate MayTry(accounts: map<string, Account>, owner: string, now: Instant) {
    owner in accounts && (accounts[owner].lock.lockedUntil.Some? ==> accounts[owner].lock.lockedUntil.value <= now)
  }

  /** An unlocked password account whose stored digest is the scrypt of this password. */
  predicate PasswordFits(accounts: map<string, Account>, owner: string, now: Instant, password: string) {
    && MayTry(accounts, owner, now) && accounts[owner].credential.ByPassword?
    && Scrypt(password, accounts[owner].credential.password.salt) == accounts[owner].credential.password.digest
  }

  /** An unlocked key account whose enrolled public key pairs with a key file that loads. */
  predicate KeyFits(accounts: map<string, Account>, owner: string, now: Instant, keyPair: nat, unlocks: bool) {
    && MayTry(accounts, owner, now) && accounts[owner].credential.ByPrivateKey?
    && unlocks && keyPair == accounts[owner].credential.publicKey
  }

  /** An unlocked password account whose recovery digest is the scrypt of this code. */
  predicate CodeFits(accounts: map<string, Account>, owner: string, now: Instant, code: string) {
    && MayTry(accounts, owner, now) && accounts[owner].credential.ByPassword? && accounts[owner].recovery.Some?
    && Scrypt(code, accounts[owner].recovery.value.salt) == accounts[owner].recovery.value.digest
  }

  /** What the operation presents fits what is stored. */
  predicate Fits(accounts: map<string, Account>, owner: string, now: Instant, op: Operation) {
    match op
    case Login(password) => PasswordFits(accounts, owner, now, password)
    case LoginWithKey(keyPair, _, unlocks) => KeyFits(accounts, owner, now, keyPair, unlocks)
    case ChangePassword(current, _) => PasswordFits(accounts, owner, now, current)
    case VerifyPassword(current) => PasswordFits(accounts, owner, now, current)
    case DeleteAccount(current) => PasswordFits(accounts, owner, now, current)
    case ResetPassword(code, _) => CodeFits(accounts, owner, now, code)
  }

  /** Exactly when each operation ends how: the sign-ins reach real keys only for what fits, and
      decoys only for what does not on an unlocked account of that kind. */
  lemma OutcomesExplained(s: State, owner: string, op: Operation, t: Clocks, d: CredentialDraws)
    ensures var o, fits := Perform(s, owner, op, t, d).1, Fits(s.accounts, owner, t.gateAt, op);
            var weak := (op.ChangePassword? || op.ResetPassword?) && |op.newPassword| < 8;
            var wrong := MayTry(s.accounts, owner, t.gateAt) && !fits;
            var kind := owner in s.accounts && (op.LoginWithKey? <==> s.accounts[owner].credential.ByPrivateKey?);
            && (o == Failed(NotFound) <==> owner !in s.accounts)
            && (o == Failed(AccountLocked) <==> owner in s.accounts && !MayTry(s.accounts, owner, t.gateAt))
            && (o.SignedIn? <==> fits && (op.Login? || op.LoginWithKey?))
            && (o.DecoySession? <==> wrong && kind && (op.Login? || op.LoginWithKey?))
            && (o == Failed(InvalidCredentials) <==> wrong && !(kind && (op.Login? || op.LoginWithKey?)))
            && (o == Confirmed <==> fits && (op.VerifyPassword? || op.DeleteAccount?))
            && (o == Failed(WeakPassword) <==> fits && weak)
            && (o == NewRecoveryCode(d.recoveryCode) <==> fits && !weak && (op.ChangePassword? || op.ResetPassword?))
  {}

  /** What a refused or wrong attempt leaves: nothing changes but one more failure for a wrong
      one, with the doubling deadline from the fifth. */
  lemma WrongAttemptsExplained(s: State, owner: string, op: Operation, t: Clocks, d: CredentialDraws)
    requires !Fits(s.accounts, owner, t.gateAt, op)
    ensures var n := Perform(s, owner, op, t, d).0;
            && (!MayTry(s.accounts, owner, t.gateAt) ==> n == s)
            && (MayTry(s.accounts, owner, t.gateAt) ==>
                  && n.database == s.database && n.accounts.Keys == s.accounts.Keys
                  && n.accounts - {owner} == s.accounts - {owner}
                  && var was, now := s.accounts[owner], n.accounts[owner];
                     && now.credential == was.credential && now.recovery == was.recovery
                     && now.lastLoginAt == was.lastLoginAt
                     && now.lock.failures == was.lock.failures + 1
                     && (now.lock.failures < 5 ==> now.lock.lockedUntil == was.lock.lockedUntil)
                     && (now.lock.failures >= 5 ==>
                           now.lock.lockedUntil == Some(t.recordedAt + LockoutSeconds(now.lock.failures) * SECOND)))
  {}

  /** What a sign-in leaves and hands out: counters cleared, everything else kept, and the key
      stretched from what was presented under the stored wrap salt, drawn now if it was missing. */
  lemma SignInsExplained(s: State, owner: string, op: Operation, t: Clocks, d: CredentialDraws)
    requires Fits(s.accounts, owner, t.gateAt, op) && (op.Login? || op.LoginWithKey?)
    ensures var (n, o) := Perform(s, owner, op, t, d);
            && o.SignedIn? && n.database == s.database && owner in n.accounts
            && n.accounts - {owner} == s.accounts - {owner}
            && var was, now := s.accounts[owner], n.accounts[owner];
               && now.lock == LockState(0, None) && now.lastLoginAt == Some(t.recordedAt) && now.recovery == was.recovery
               && (op.Login? ==>
                     && var c := was.credential.password;
                        var salt := if c.keyWrapSalt.Some? then c.keyWrapSalt.value else d.keyWrapSalt;
                        && now.credential == ByPassword(PasswordCredential(c.salt, c.digest, Some(salt)))
                        && o.vaultKey == Scrypt(op.password, salt))
               && (op.LoginWithKey? ==>
                     && var c := was.credential;
                        var salt := if c.wrapSalt.Some? then c.wrapSalt.value else d.keyWrapSalt;
                        && now.credential == ByPrivateKey(op.keyPair, Some(salt))
                        && o.vaultKey == ScryptKey(op.keyPair, op.passphrase, salt))
  {}

  /** What a confirmation or a deletion leaves: the counters cleared, or the account gone with
      every record and log entry, the key rows and the other accounts staying. */
  lemma ConfirmationsExplained(s: State, owner: string, op: Operation, t: Clocks, d: CredentialDraws)
    requires Fits(s.accounts, owner, t.gateAt, op) && (op.VerifyPassword? || op.DeleteAccount?)
    ensures var n := Perform(s, owner, op, t, d).0;
            && n.accounts - {owner} == s.accounts - {owner}
            && (op.VerifyPassword? ==>
                  && n.database == s.database && owner in n.accounts
                  && n.accounts[owner] == Account(s.accounts[owner].credential, LockState(0, None),
                                                  Some(t.recordedAt), s.accounts[owner].recovery))
            && (op.DeleteAccount? ==>
                  && owner !in n.accounts
                  && n.database == (if s.database.None? then None else Some(Stored(s.database.value.rows, map[], []))))
  {}

  /** What a password change or a recovery reset leaves: the new password and the new code fit,
      counters cleared, the records and the log as they were; a weak password changes nothing. */
  lemma ReplacementsExplained(s: State, owner: string, op: Operation, t: Clocks, d: CredentialDraws)
    requires Fits(s.accounts, owner, t.gateAt, op) && (op.ChangePassword? || op.ResetPassword?)
    ensures var n := Perform(s, owner, op, t, d).0;
            && (|op.newPassword| < 8 ==> n == s)
            && (|op.newPassword| >= 8 ==>
                  && n.accounts - {owner} == s.accounts - {owner}
                  && PasswordFits(n.accounts, owner, t.recordedAt, op.newPassword)
                  && CodeFits(n.accounts, owner, t.recordedAt, d.recoveryCode)
                  && n.accounts[owner].lock == LockState(0, None) && n.accounts[owner].lastLoginAt == Some(t.recordedAt)
                  && n.accounts[owner].credential.password.keyWrapSalt == Some(d.keyWrapSalt)
                  && n.accounts[owner].recovery.value.keyWrapSalt == Some(d.recoveryWrapSalt)
                  && (n.database.None? <==> s.database.None?)
                  && (s.database.Some? ==>
                        n.database.value.records == s.database.value.records && n.database.value.log == s.database.value.log))
  {}

  function Registered(s: State, owner: string, password: string, d: CredentialDraws): (State, Outcome) {
    if owner in s.accounts then (s, Failed(AlreadyExists))
    else if |password| < MIN_PASSWORD_LENGTH then (s, Failed(WeakPassword))
    else
      var acc := Account(ByPassword(Hashed(password, d.salt, d.keyWrapSalt)), Clear, None,
                         Some(Hashed(d.recoveryCode, d.recoverySalt, d.recoveryWrapSalt)));
      (State(s.accounts[owner := acc], RewrappedDatabase(s.database, None, password, d)), NewRecoveryCode(d.recoveryCode))
  }

  /** What registration leaves: a fresh account the password and the code fit, others as they
      were; an existing account or a weak password changes nothing. */
  lemma RegistrationExplained(s: State, owner: string, password: string, d: CredentialDraws, now: Instant)
    ensures var (n, o) := Registered(s, owner, password, d);
            && (owner in s.accounts <==> o == Failed(AlreadyExists))
            && (owner !in s.accounts && |password| < 8 <==> o == Failed(WeakPassword))
            && (o.Failed? ==> n == s)
            && (!o.Failed? ==>
                  && o == NewRecoveryCode(d.recoveryCode) && n.accounts - {owner} == s.accounts - {owner}
                  && PasswordFits(n.accounts, owner, now, password) && CodeFits(n.accounts, owner, now, d.recoveryCode)
                  && n.accounts[owner].lock == LockState(0, None) && n.accounts[owner].lastLoginAt == None
                  && (s.database.Some? ==>
                        && n.database.Some? && n.database.value.records == s.database.value.records
                        && n.database.value.log == s.database.value.log))
  {}

  // ---- The objects ------------------------------------------------------------------------

  /** An account loaded from storage, changed in place and saved again. */
  class UserAccount {
    var data: Account

    constructor (data: Account)
      ensures this.data == data
    {
      this.data := data;
    }
  }

  class AccountRepository {
    var accounts: map<string, Account>

    constructor ()
      ensures accounts == map[]
    {
      accounts := map[];
    }

    method Load(owner: string) returns (account: UserAccount?)
      ensures account == null <==> owner !in accounts
      ensures account != null ==> fresh(account) && account.data == accounts[owner]
    {
      account := null;
      if owner in accounts {
        account := new UserAccount(accounts[owner]);
      }
    }

    method Save(owner: string, account: UserAccount)
      modifies this
      ensures accounts == old(accounts)[owner := account.data]
    {
      accounts := accounts[owner := account.data];
    }

    method Delete(owner: string)
      modifies this
      ensures accounts == old(accounts) - {owner}
    {
      accounts := accounts - {owner};
    }
  }

  class LockoutPolicy {
    constructor () {}

    method RegisterFailure(account: UserAccount, now: Instant)
      modifies account
      ensures account.data == AfterWrong(old(account.data), now)
    {
      var s := account.data.lock;
      s := s.(failures := s.failures + 1);
      if s.failures >= MAX_FAILED_ATTEMPTS {
        s := s.(lockedUntil := Some(now + LockoutSeconds(s.failures) * SECOND));
      }
      account.data := account.data.(lock := s);
    }

    method RegisterSuccess(account: UserAccount, now: Instant)
      modifies account
      ensures account.data == AfterRight(old(account.data), now)
    {
      account.data := account.data.(lock := LockState(0, None));
      account.data := account.data.(lastLoginAt := Some(now));
    }
  }

  class Database {
    const meta: AppMeta
    var records: Metadata.Table
    var log: seq<TamperEvidentLog.Entry>

    constructor ()
      ensures fresh(meta) && meta.rows == map[] && records == map[] && log == []
    {
      meta := new AppMeta();
      records := map[];
      log := [];
    }
  }

  class AuthController {
    const repository: AccountRepository
    const policy: LockoutPolicy
    const database: Database?
    const meta: AppMeta?

    ghost predicate Valid() {
      if database == null then meta == null else meta == database.meta
    }

    constructor (repository: AccountRepository, database: Database?)
      ensures Valid() && this.repository == repository && this.database == database
    {
      this.repository := repository;
      this.policy := new LockoutPolicy();
      this.database := database;
      this.meta := if database == null then null else database.meta;
    }

    ghost function Now(): State
      reads repository, database, meta
      requires Valid()
    {
      State(repository.accounts,
            if database == null then None else Some(Stored(database.meta.rows, database.records, database.log)))
    }

    method RegisterPasswordAccount(owner: string, password: string, d: CredentialDraws) returns (o: Outcome)
      requires Valid()
      modifies repository, meta
      ensures (Now(), o) == Registered(old(Now()), owner, password, d)
    {
      if owner in repository.accounts {
        return Failed(AlreadyExists);
      }
      if |password| < MIN_PASSWORD_LENGTH {
        return Failed(WeakPassword);
      }
      var credential := Hashed(password, d.salt, d.keyWrapSalt);
      var recovery := Hashed(d.recoveryCode, d.recoverySalt, d.recoveryWrapSalt);
      var account := new UserAccount(Account(ByPassword(credential), Clear, None, Some(recovery)));
      repository.Save(owner, account);
      RewrapMasterKey(None, password, d);
      return NewRecoveryCode(d.recoveryCode);
    }

    method RegisterPrivateKeyAccount(owner: string, publicKey: nat) returns (o: Outcome)
      requires Valid()
      modifies repository
      ensures owner in old(repository.accounts) ==>
                o == Failed(AlreadyExists) && repository.accounts == old(repository.accounts)
      ensures owner !in old(repository.accounts) ==>
                && o == Confirmed
                && repository.accounts
                   == old(repository.accounts)[owner := Account(ByPrivateKey(publicKey, None), Clear, None, None)]
    {
      if owner in repository.accounts {
        return Failed(AlreadyExists);
      }
      var account := new UserAccount(Account(ByPrivateKey(publicKey, None), Clear, None, None));
      repository.Save(owner, account);
      return Confirmed;
    }

    /** The account if it may be tried; a wrong method counts as a failed attempt. */
    method RequireUnlocked(owner: string, byKey: bool, t: Clocks) returns (r: Result<UserAccount, AuthError>)
      requires Valid()
      modifies repository
      ensures var s := old(Now());
              && (owner !in s.accounts ==> r == Failure(NotFound) && Now() == s)
              && (owner in s.accounts && Locked(s.accounts[owner].lock, t.gateAt) ==>
                    r == Failure(AccountLocked) && Now() == s)
              && (owner in s.accounts && !Locked(s.accounts[owner].lock, t.gateAt) ==>
                    if s.accounts[owner].credential.ByPrivateKey? != byKey then
                      && r == Failure(InvalidCredentials)
                      && Now() == Put(s, owner, AfterWrong(s.accounts[owner], t.recordedAt))
                    else r.Success? && fresh(r.value) && r.value.data == s.accounts[owner] && Now() == s)
    {
      var account := repository.Load(owner);
      if account == null {
        return Failure(NotFound);
      }
      if account.data.lock.lockedUntil.Some? && t.gateAt < account.data.lock.lockedUntil.value {
        return Failure(AccountLocked);
      }
      if account.data.credential.ByPrivateKey? != byKey {
        Fail(owner, account, t.recordedAt);
        return Failure(InvalidCredentials);
      }
      return Success(account);
    }

    method Fail(owner: string, account: UserAccount, now: Instant)
      requires Valid()
      modifies repository, account
      ensures Now() == Put(old(Now()), owner, AfterWrong(old(account.data), now))
    {
      policy.RegisterFailure(account, now);
      repository.Save(owner, account);
    }

    method Succeed(owner: string, account: UserAccount, now: Instant)
      requires Valid()
      modifies repository, account
      ensures account.data == AfterRight(old(account.data), now)
      ensures Now() == Put(old(Now()), owner, account.data)
    {
      policy.RegisterSuccess(account, now);
      repository.Save(owner, account);
    }

    method AuthenticatePassword(owner: string, password: string, t: Clocks, d: CredentialDraws) returns (o: Outcome)
      requires Valid()
      modifies repository
      ensures (Now(), o) == Perform(old(Now()), owner, Login(password), t, d)
      ensures o.SignedIn? <==> PasswordFits(old(repository.accounts), owner, t.gateAt, password)
    {
      var r := RequireUnlocked(owner, false, t);
      if r.Failure? {
        return Failed(r.error);
      }
      var account := r.value;
      var c := account.data.credential.password;
      if Matches(password, c) {
        if c.keyWrapSalt.None? {
          c := c.(keyWrapSalt := Some(d.keyWrapSalt));
          account.data := account.data.(credential := ByPassword(c));
          repository.Save(owner, account);
        }
        var vaultKey := Scrypt(password, c.keyWrapSalt.value);
        Succeed(owner, account, t.recordedAt);
        assert repository.accounts == old(repository.accounts)[owner := account.data];
        return SignedIn(vaultKey);
      }
      Fail(owner, account, t.recordedAt);
      return DecoySession;
    }

    method AuthenticatePrivateKey(
      owner: string, keyPair: nat, passphrase: Bytes, unlocks: bool, t: Clocks, d: CredentialDraws) returns (o: Outcome)
      requires Valid()
      modifies repository
      ensures (Now(), o) == Perform(old(Now()), owner, LoginWithKey(keyPair, passphrase, unlocks), t, d)
      ensures o.SignedIn? <==> KeyFits(old(repository.accounts), owner, t.gateAt, keyPair, unlocks)
      ensures o.SignedIn? ==>
                var salt := old(repository.accounts)[owner].credential.wrapSalt;
                o.vaultKey == ScryptKey(keyPair, passphrase, if salt.Some? then salt.value else d.keyWrapSalt)
      ensures MayTry(old(repository.accounts), owner, t.gateAt) && old(repository.accounts)[owner].credential.ByPrivateKey?
              && !(unlocks && keyPair == old(repository.accounts)[owner].credential.publicKey) ==>
                && o == DecoySession
                && repository.accounts[owner].lock.failures == old(repository.accounts)[owner].lock.failures + 1
    {
      var r := RequireUnlocked(owner, true, t);
      if r.Failure? {
        return Failed(r.error);
      }
      var account := r.value;
      if unlocks && keyPair == account.data.credential.publicKey {
        var wrapSalt := account.data.credential.wrapSalt;
        if wrapSalt.None? {
          wrapSalt := Some(d.keyWrapSalt);
          account.data := account.data.(credential := ByPrivateKey(account.data.credential.publicKey, wrapSalt));
          repository.Save(owner, account);
        }
        var vaultKey := ScryptKey(keyPair, passphrase, wrapSalt.value);
        Succeed(owner, account, t.recordedAt);
        assert repository.accounts == old(repository.accounts)[owner := account.data];
        return SignedIn(vaultKey);
      }
      Fail(owner, account, t.recordedAt);
      return DecoySession;
    }

    method ChangeOwnPassword(owner: string, current: string, newPassword: string, t: Clocks, d: CredentialDraws)
      returns (o: Outcome)
      requires Valid()
      modifies repository, meta
      ensures (Now(), o) == Perform(old(Now()), owner, ChangePassword(current, newPassword), t, d)
      ensures o.NewRecoveryCode? <==>
                PasswordFits(old(repository.accounts), owner, t.gateAt, current) && |newPassword| >= MIN_PASSWORD_LENGTH
    {
      var r := RequireUnlocked(owner, false, t);
      if r.Failure? {
        return Failed(r.error);
      }
      var account := r.value;
      if Matches(current, account.data.credential.password) {
        var oldVmk := UnwrapVmk(PasswordSlot, current, account.data.credential.password);
        o := ReplaceCredentials(owner, account, oldVmk, newPassword, t.recordedAt, d);
        return;
      }
      Fail(owner, account, t.recordedAt);
      return Failed(InvalidCredentials);
    }

    method ResetPasswordWithRecoveryCode(
      owner: string, code: string, newPassword: string, t: Clocks, d: CredentialDraws) returns (o: Outcome)
      requires Valid()
      modifies repository, meta
      ensures (Now(), o) == Perform(old(Now()), owner, ResetPassword(code, newPassword), t, d)
      ensures o.NewRecoveryCode? <==>
                CodeFits(old(repository.accounts), owner, t.gateAt, code) && |newPassword| >= MIN_PASSWORD_LENGTH
    {
      var r := RequireUnlocked(owner, false, t);
      if r.Failure? {
        return Failed(r.error);
      }
      var account := r.value;
      if account.data.recovery.Some? && Matches(code, account.data.recovery.value) {
        var oldVmk := UnwrapVmk(RecoverySlot, code, account.data.recovery.value);
        o := ReplaceCredentials(owner, account, oldVmk, newPassword, t.recordedAt, d);
        return;
      }
      Fail(owner, account, t.recordedAt);
      return Failed(InvalidCredentials);
    }

    method VerifyOwnPassword(owner: string, current: string, t: Clocks, d: CredentialDraws) returns (o: Outcome)
      requires Valid()
      modifies repository
      ensures (Now(), o) == Perform(old(Now()), owner, VerifyPassword(current), t, d)
      ensures o == Confirmed <==> PasswordFits(old(repository.accounts), owner, t.gateAt, current)
    {
      var r := RequireUnlocked(owner, false, t);
      if r.Failure? {
        return Failed(r.error);
      }
      var account := r.value;
      if Matches(current, account.data.credential.password) {
        Succeed(owner, account, t.recordedAt);
        return Confirmed;
      }
      Fail(owner, account, t.recordedAt);
      return Failed(InvalidCredentials);
    }

    method DeleteOwnAccount(owner: string, current: string, t: Clocks, d: CredentialDraws) returns (o: Outcome)
      requires Valid()
      modifies repository, database
      ensures (Now(), o) == Perform(old(Now()), owner, DeleteAccount(current), t, d)
      ensures o == Confirmed <==> PasswordFits(old(repository.accounts), owner, t.gateAt, current)
    {
      o := VerifyOwnPassword(owner, current, t, d);
      if o != Confirmed {
        return;
      }
      if database != null {
        database.records := map[];
        database.log := [];
      }
      repository.Delete(owner);
      assert repository.accounts == old(repository.accounts) - {owner};
    }

    method UnwrapVmk(slot: Slot, secret: string, c: PasswordCredential) returns (vmk: Option<Secret>)
      requires Valid()
      ensures vmk == ReachableVmk(Now().database, slot, secret, c)
    {
      if database == null || c.keyWrapSalt.None? {
        return None;
      }
      vmk := database.meta.Load(slot, Scrypt(secret, c.keyWrapSalt.value));
    }

    /** The common second half of a password change and a recovery reset. */
    method ReplaceCredentials(
      owner: string, account: UserAccount, oldVmk: Option<Secret>, newPassword: string, now: Instant, d: CredentialDraws)
      returns (o: Outcome)
      requires Valid()
      modifies repository, account, meta
      ensures (Now(), o) == Replaced(old(Now()), owner, old(account.data), oldVmk, newPassword, now, d)
    {
      if |newPassword| < MIN_PASSWORD_LENGTH {
        return Failed(WeakPassword);
      }
      account.data := account.data.(credential := ByPassword(Hashed(newPassword, d.salt, d.keyWrapSalt)));
      account.data := account.data.(recovery := Some(Hashed(d.recoveryCode, d.recoverySalt, d.recoveryWrapSalt)));
      Succeed(owner, account, now);
      RewrapMasterKey(oldVmk, newPassword, d);
      return NewRecoveryCode(d.recoveryCode);
    }

    method RewrapMasterKey(oldVmk: Option<Secret>, newPassword: string, d: CredentialDraws)
      requires Valid()
      modifies meta
      ensures Now() == old(Now()).(database := RewrappedDatabase(old(Now()).database, oldVmk, newPassword, d))
    {
      if database == null {
        return;
      }
      var vaultKey := Scrypt(newPassword, d.keyWrapSalt);
      var recoveryKey := Scrypt(d.recoveryCode, d.recoveryWrapSalt);
      if oldVmk.Some? {
        database.meta.Save(PasswordSlot, oldVmk.value, vaultKey, d.keys.passwordNonce);
        database.meta.Save(RecoverySlot, oldVmk.value, recoveryKey, d.keys.recoveryNonce);
      } else {
        var vmk := database.meta.EstablishMasterKey(vaultKey, recoveryKey, d.keys);
      }
    }
  }
}
