// Whole runs of operations on one account: its lockout, its master key, and
// the protection keys every session reads.

module AccountRuns {
  import opened Results
  import opened Lockout
  import opened VaultKeys
  import opened Accounts

  datatype Request = Request(op: Operation, clocks: Clocks, draws: CredentialDraws)

  function After(s: State, owner: string, q: Request): State {
    Perform(s, owner, q.op, q.clocks, q.draws).0
  }

  function AfterAll(s: State, owner: string, qs: seq<Request>): State {
    if qs == [] then s else After(AfterAll(s, owner, qs[..|qs| - 1]), owner, qs[|qs| - 1])
  }

  // ---- One lockout behind every entry point -------------------------------------------

  predicate CorrectFor(acc: Account, op: Operation) {
    RightMethod(acc.credential, op) && Proves(acc, op)
  }

  /** A proved credential with a weak replacement password leaves the counters alone. */
  predicate LeavesCounters(s: State, owner: string, q: Request) {
    owner !in s.accounts || Perform(s, owner, q.op, q.clocks, q.draws).1 == Failed(WeakPassword)
  }

  /** The guesses these requests amount to, through whichever operations they come. */
  function GuessesMade(s: State, owner: string, qs: seq<Request>): seq<Guess> {
    if qs == [] then []
    else
      var before, q := qs[..|qs| - 1], qs[|qs| - 1];
      var t := AfterAll(s, owner, before);
      if LeavesCounters(t, owner, q) then GuessesMade(s, owner, before)
      else GuessesMade(s, owner, before)
           + [Guess(q.clocks.gateAt, q.clocks.recordedAt, CorrectFor(t.accounts[owner], q.op))]
  }

  lemma OneRequestIsOneGuess(s: State, owner: string, q: Request)
    requires owner in s.accounts && owner in After(s, owner, q).accounts
    ensures After(s, owner, q).accounts[owner].lock ==
            if LeavesCounters(s, owner, q) then s.accounts[owner].lock
            else Lockout.Step(s.accounts[owner].lock,
                              Guess(q.clocks.gateAt, q.clocks.recordedAt, CorrectFor(s.accounts[owner], q.op)))
  {}

  lemma DeletedStaysDeleted(s: State, owner: string, q: Request)
    requires owner !in s.accounts
    ensures After(s, owner, q) == s
  {}

  /** Whatever mixture of sign-ins, confirmations, changes and resets is tried, the account's
      counters are those of the lockout policy run on all of them together. */
  lemma {:induction false} OneLockoutForAll(s: State, owner: string, qs: seq<Request>)
    requires owner in s.accounts && s.accounts[owner].lock == Clear
    ensures owner in AfterAll(s, owner, qs).accounts ==>
              AfterAll(s, owner, qs).accounts[owner].lock == Lockout.Run(GuessesMade(s, owner, qs))
  {
    if qs != [] {
      var before, q := qs[..|qs| - 1], qs[|qs| - 1];
      OneLockoutForAll(s, owner, before);
      var t := AfterAll(s, owner, before);
      if owner in After(t, owner, q).accounts {
        if owner !in t.accounts { DeletedStaysDeleted(t, owner, q); }
        OneRequestIsOneGuess(t, owner, q);
        var g := GuessesMade(s, owner, qs);
        if !LeavesCounters(t, owner, q) {
          assert g[..|g| - 1] == GuessesMade(s, owner, before);
        }
      }
    }
  }

  ghost predicate ClockedRequests(qs: seq<Request>) {
    && (forall i :: 0 <= i < |qs| ==> qs[i].clocks.gateAt <= qs[i].clocks.recordedAt)
    && (forall i, j :: 0 <= i < j < |qs| ==> qs[i].clocks.recordedAt <= qs[j].clocks.gateAt)
  }

  lemma {:induction false} GuessesMadeAreClocked(s: State, owner: string, qs: seq<Request>)
    requires ClockedRequests(qs)
    ensures Clocked(GuessesMade(s, owner, qs))
    ensures forall g :: g in GuessesMade(s, owner, qs) ==> exists i :: 0 <= i < |qs| && qs[i].clocks.recordedAt == g.recordedAt
  {
    if qs != [] {
      var before, q := qs[..|qs| - 1], qs[|qs| - 1];
      GuessesMadeAreClocked(s, owner, before);
      var g := GuessesMade(s, owner, before);
      forall i | 0 <= i < |g| ensures g[i].recordedAt <= q.clocks.gateAt {
        assert g[i] in g;
      }
    }
  }

  /** So guessing is slowed however the guesses are spread over the entry points: the n-th
      counted failure comes at least 30*(2^(n-5)-1) seconds after the fifth, and from the
      twelfth on at least 3810 + 3600*(n-12) seconds after it. */
  lemma GuessRateAcrossEntryPoints(s: State, owner: string, qs: seq<Request>, n: nat)
    requires owner in s.accounts && s.accounts[owner].lock == Clear && ClockedRequests(qs)
    requires 5 <= n <= |FailureTimes(GuessesMade(s, owner, qs))|
    ensures var t := FailureTimes(GuessesMade(s, owner, qs));
            && (n <= 12 ==> t[4] + 30 * (Pow2(n - 5) - 1) * SECOND <= t[n - 1])
            && (n >= 12 ==> t[4] + (3810 + 3600 * (n - 12)) * SECOND <= t[n - 1])
  {
    GuessesMadeAreClocked(s, owner, qs);
    GuessRateBound(GuessesMade(s, owner, qs), n);
  }

  // ---- One master key until deletion -----------------------------------------------------

  /** The password and the recovery code the owner now holds. */
  datatype Known = Known(password: string, code: string)

  function VaultKeyOf(acc: Account, k: Known): Secret
    requires acc.credential.ByPassword? && acc.credential.password.keyWrapSalt.Some?
  {
    Scrypt(k.password, acc.credential.password.keyWrapSalt.value)
  }

  /** The owner's password and code both verify and both reach this master key. */
  predicate Guarded(s: State, owner: string, k: Known, vmk: Secret) {
    && owner in s.accounts && s.database.Some?
    && var acc := s.accounts[owner];
       && acc.credential.ByPassword? && acc.recovery.Some?
       && acc.credential.password.keyWrapSalt.Some? && acc.recovery.value.keyWrapSalt.Some?
       && Matches(k.password, acc.credential.password) && Matches(k.code, acc.recovery.value)
       && Reaches(s.database.value.rows, VaultKeyOf(acc, k),
                  Scrypt(k.code, acc.recovery.value.keyWrapSalt.value), vmk)
  }

  function KnownAfter(s: State, owner: string, k: Known, q: Request): Known {
    match Perform(s, owner, q.op, q.clocks, q.draws).1
    case NewRecoveryCode(code) =>
      Known(match q.op case ChangePassword(_, p) => p case ResetPassword(_, p) => p case _ => k.password, code)
    case _ => k
  }

  /** Registration guards a master key: a fresh one, unless the new vault key happened to open
      an old slot. */
  lemma RegistrationGuards(s: State, owner: string, password: string, d: CredentialDraws)
    requires owner !in s.accounts && |password| >= MIN_PASSWORD_LENGTH && s.database.Some?
    ensures var t := Registered(s, owner, password, d).0;
            Guarded(t, owner, Known(password, d.recoveryCode),
                    MasterKeyFor(s.database.value.rows, Scrypt(password, d.keyWrapSalt), d.keys))
  {
    var m, vaultKey := s.database.value.rows, Scrypt(password, d.keyWrapSalt);
    var n := WithMasterKey(m, vaultKey, d.keys);
    SavedSlot(m, PasswordSlot, Random(d.keys.vmk), vaultKey, d.keys.passwordNonce);
    SavedSlot(n, RecoverySlot, MasterKeyFor(m, vaultKey, d.keys), Scrypt(d.recoveryCode, d.recoveryWrapSalt), d.keys.recoveryNonce);
  }

  lemma RewrapReaches(m: Meta, vmk: Secret, newPassword: string, d: CredentialDraws)
    ensures var n := Rewrapped(m, Some(vmk), newPassword, d);
            && Reaches(n, Scrypt(newPassword, d.keyWrapSalt), Scrypt(d.recoveryCode, d.recoveryWrapSalt), vmk)
            && forall p, k :: StoredPair(n, p, k) == StoredPair(m, p, k)
  {
    var vaultKey, recoveryKey := Scrypt(newPassword, d.keyWrapSalt), Scrypt(d.recoveryCode, d.recoveryWrapSalt);
    var first := SaveWrapped(m, PasswordSlot, vmk, vaultKey, d.keys.passwordNonce);
    SavedSlot(m, PasswordSlot, vmk, vaultKey, d.keys.passwordNonce);
    SavedSlot(first, RecoverySlot, vmk, recoveryKey, d.keys.recoveryNonce);
  }

  /** Every operation that leaves the account in place keeps the master key, under the
      password and code the owner then holds, and keeps every stored key pair. */
  lemma {:induction false} OperationKeepsMasterKey(s: State, owner: string, k: Known, vmk: Secret, q: Request)
    requires Guarded(s, owner, k, vmk) && owner in After(s, owner, q).accounts
    ensures Guarded(After(s, owner, q), owner, KnownAfter(s, owner, k, q), vmk)
    ensures forall p :: StoredPair(After(s, owner, q).database.value.rows, p, vmk)
                     == StoredPair(s.database.value.rows, p, vmk)
  {
    var acc, m := s.accounts[owner], s.database.value.rows;
    match q.op
    case ChangePassword(current, newPassword) =>
      if !Locked(acc.lock, q.clocks.gateAt) && Proves(acc, q.op) {
        assert current == k.password;
        RewrapReaches(m, vmk, newPassword, q.draws);
      }
    case ResetPassword(code, newPassword) =>
      if !Locked(acc.lock, q.clocks.gateAt) && Proves(acc, q.op) {
        assert code == k.code;
        RewrapReaches(m, vmk, newPassword, q.draws);
      }
    case _ =>
  }

  /** A successful login hands the session exactly the vault key that opens the slot. */
  lemma LoginYieldsTheVaultKey(s: State, owner: string, k: Known, vmk: Secret, q: Request)
    requires Guarded(s, owner, k, vmk) && Perform(s, owner, q.op, q.clocks, q.draws).1.SignedIn?
    ensures Perform(s, owner, q.op, q.clocks, q.draws).1.vaultKey == VaultKeyOf(s.accounts[owner], k)
    ensures VaultKeyOf(After(s, owner, q).accounts[owner], k) == VaultKeyOf(s.accounts[owner], k)
  {}

  // ---- Runs of operations and loads ----------------------------------------------------------

  /** An operation on the account, or a session with the current vault key loading a pair. */
  datatype Event = Operate(request: Request) | LoadPair(purpose: Purpose, draws: Draws)

  /** The installation and what its owner knows. */
  datatype Run = Run(state: State, known: Known)

  function AfterLoad(s: State, p: Purpose, vaultKey: Secret, d: Draws): State
    requires s.database.Some?
  {
    s.(database := Some(s.database.value.(rows := LoadKeys(s.database.value.rows, p, vaultKey, d).0)))
  }

  function LoadedPair(s: State, p: Purpose, vaultKey: Secret, d: Draws): KeyPair
    requires s.database.Some?
  {
    LoadKeys(s.database.value.rows, p, vaultKey, d).1
  }

  predicate HasVaultKey(s: State, owner: string) {
    && s.database.Some? && owner in s.accounts
    && s.accounts[owner].credential.ByPassword? && s.accounts[owner].credential.password.keyWrapSalt.Some?
  }

  function NextRun(r: Run, owner: string, e: Event): Run {
    match e
    case Operate(q) => Run(After(r.state, owner, q), KnownAfter(r.state, owner, r.known, q))
    case LoadPair(p, d) =>
      if !HasVaultKey(r.state, owner) then r
      else r.(state := AfterLoad(r.state, p, VaultKeyOf(r.state.accounts[owner], r.known), d))
  }

  function Exec(r: Run, owner: string, es: seq<Event>): Run {
    if es == [] then r else NextRun(Exec(r, owner, es[..|es| - 1]), owner, es[|es| - 1])
  }

  /** The account is never deleted along the way. */
  ghost predicate KeepsAccount(r: Run, owner: string, es: seq<Event>) {
    forall i :: 0 <= i <= |es| ==> owner in Exec(r, owner, es[..i]).state.accounts
  }

  lemma {:induction false} EventKeepsMasterKey(r: Run, owner: string, vmk: Secret, e: Event)
    requires Guarded(r.state, owner, r.known, vmk) && owner in NextRun(r, owner, e).state.accounts
    ensures var n := NextRun(r, owner, e);
            && Guarded(n.state, owner, n.known, vmk)
            && forall p :: StoredPair(r.state.database.value.rows, p, vmk).Some? ==>
                 StoredPair(n.state.database.value.rows, p, vmk) == StoredPair(r.state.database.value.rows, p, vmk)
  {
    match e
    case Operate(q) => OperationKeepsMasterKey(r.state, owner, r.known, vmk, q);
    case LoadPair(p, d) =>
      var acc, m := r.state.accounts[owner], r.state.database.value.rows;
      var vaultKey := VaultKeyOf(acc, r.known);
      LoadKeepsMasterKey(m, p, vaultKey, vaultKey, Scrypt(r.known.code, acc.recovery.value.keyWrapSalt.value), vmk, d);
      forall q | StoredPair(m, q, vmk).Some?
        ensures StoredPair(LoadKeys(m, p, vaultKey, d).0, q, vmk) == StoredPair(m, q, vmk)
      {
        LoadStoresPair(m, p, vaultKey, vmk, d, q);
      }
  }

  /** Until the account is deleted, any sequence of logins, wrong guesses, password changes,
      recovery resets and loads keeps one master key, reached from both slots under the current
      password and the current recovery code; pairs once stored under it stay. */
  lemma {:induction false} MasterKeySurvives(r: Run, owner: string, vmk: Secret, es: seq<Event>)
    requires Guarded(r.state, owner, r.known, vmk) && KeepsAccount(r, owner, es)
    ensures var n := Exec(r, owner, es);
            && Guarded(n.state, owner, n.known, vmk)
            && forall p :: StoredPair(r.state.database.value.rows, p, vmk).Some? ==>
                 StoredPair(n.state.database.value.rows, p, vmk) == StoredPair(r.state.database.value.rows, p, vmk)
  {
    if es != [] {
      var before := es[..|es| - 1];
      forall i | 0 <= i <= |before| ensures owner in Exec(r, owner, before[..i]).state.accounts {
        assert before[..i] == es[..i];
      }
      MasterKeySurvives(r, owner, vmk, before);
      assert es[..|es|] == es;
      EventKeepsMasterKey(Exec(r, owner, before), owner, vmk, es[|es| - 1]);
    }
  }

  /** Every load by a session with the current vault key returns the same pair, however many
      credential rotations lie between two loads. */
  lemma LoadsAgree(r: Run, owner: string, vmk: Secret, p: Purpose, first: Draws, es: seq<Event>, second: Draws)
    requires Guarded(r.state, owner, r.known, vmk)
    requires KeepsAccount(NextRun(r, owner, LoadPair(p, first)), owner, es)
    ensures var n := Exec(NextRun(r, owner, LoadPair(p, first)), owner, es);
            && Guarded(n.state, owner, n.known, vmk)
            && LoadedPair(n.state, p, VaultKeyOf(n.state.accounts[owner], n.known), second)
               == LoadedPair(r.state, p, VaultKeyOf(r.state.accounts[owner], r.known), first)
  {
    var loaded := NextRun(r, owner, LoadPair(p, first));
    EventKeepsMasterKey(r, owner, vmk, LoadPair(p, first));
    LoadStoresPair(r.state.database.value.rows, p, VaultKeyOf(r.state.accounts[owner], r.known), vmk, first, p);
    MasterKeySurvives(loaded, owner, vmk, es);
  }

  /** A load with any other vault key, such as one kept by a session from before a password
      change, breaks this: the password slot no longer opens under the current password. */
  lemma StaleLoadLosesMasterKey(
    s: State, owner: string, k: Known, vmk: Secret, p: Purpose, presented: Secret, d: Draws)
    requires Guarded(s, owner, k, vmk)
    ensures Guarded(AfterLoad(s, p, presented, d), owner, k, vmk) <==> presented == VaultKeyOf(s.accounts[owner], k)
  {
    var acc := s.accounts[owner];
    LoadKeepsMasterKey(s.database.value.rows, p, presented, VaultKeyOf(acc, k),
                       Scrypt(k.code, acc.recovery.value.keyWrapSalt.value), vmk, d);
  }

  /** Deletion ends the epoch: with a salt that never wrapped the password slot before, the
      next registration guards a newly drawn master key. */
  lemma NextEpochIsFresh(s: State, owner: string, password: string, d: CredentialDraws)
    requires owner !in s.accounts && |password| >= MIN_PASSWORD_LENGTH && s.database.Some?
    requires LoadWrapped(s.database.value.rows, PasswordSlot, Scrypt(password, d.keyWrapSalt)).None?
    ensures Guarded(Registered(s, owner, password, d).0, owner, Known(password, d.recoveryCode), Random(d.keys.vmk))
  {
    RegistrationGuards(s, owner, password, d);
  }
}
