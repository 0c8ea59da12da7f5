/** First-user registration as interleaved steps of concurrent attempts
    (allama/auth/users.py). */
module Registration {
  import opened Prelude

  datatype User = User(email: string, superuser: bool)

  datatype OrgRole = Owner | Member

  /** How far an attempt has come. A stored user is known by its place in the table;
      `first` is the answer to "is this the first user?" that the attempt acts on. */
  datatype Phase =
    | Validated(email: string)
    | Stored(user: nat)
    | Decided(user: nat, first: bool)
    | Promoted(user: nat, first: bool)
    | Registered(user: nat, first: bool)
    | Closed

  datatype State = State(users: seq<User>, attempts: map<nat, Phase>, roles: map<nat, OrgRole>)

  const INITIAL := State([], map[], map[])

  /** One database round trip of one attempt. What lies outside is part of the step:
      whether the domain check passes, whether the library creates the user (password,
      case-insensitive duplicates), and whether an organization exists. */
  datatype Step =
    | Validate(attempt: nat, email: string, domainAllowed: bool)
    | Create(attempt: nat, created: bool)
    | Decide(attempt: nat)
    | Promote(attempt: nat)
    | Join(attempt: nat, orgFound: bool)

  predicate EmailTaken(users: seq<User>, email: string) {
    exists i :: 0 <= i < |users| && users[i].email == email
  }

  /** The designated address, unless the setting is missing or empty. */
  predicate Designated(config: Option<string>, email: string) {
    config.Some? && config.value != "" && email == config.value
  }

  predicate Enabled(s: State, step: Step) {
    match step
    case Validate(a, _, _) => a !in s.attempts
    case Create(a, _) => a in s.attempts && s.attempts[a].Validated?
    case Decide(a) => a in s.attempts && s.attempts[a].Stored? && s.attempts[a].user < |s.users|
    case Promote(a) => a in s.attempts && s.attempts[a].Decided? && s.attempts[a].user < |s.users|
    case Join(a, _) => a in s.attempts && s.attempts[a].Promoted?
  }

  function Next(config: Option<string>, s: State, step: Step): State
    requires Enabled(s, step)
  {
    match step
    case Validate(a, email, domainAllowed) =>
      var ok := if s.users == [] then Designated(config, email) else domainAllowed;
      s.(attempts := s.attempts[a := if ok then Validated(email) else Closed])
    case Create(a, created) =>
      var email := s.attempts[a].email;
      if EmailTaken(s.users, email) || !created then s.(attempts := s.attempts[a := Closed])
      else s.(users := s.users + [User(email, false)], attempts := s.attempts[a := Stored(|s.users|)])
    case Decide(a) =>
      var u := s.attempts[a].user;
      var first := |s.users| == 1 && Designated(config, s.users[u].email);
      s.(attempts := s.attempts[a := Decided(u, first)])
    case Promote(a) =>
      var Decided(u, first) := s.attempts[a];
      s.(users := if first then s.users[u := s.users[u].(superuser := true)] else s.users,
         attempts := s.attempts[a := Promoted(u, first)])
    case Join(a, orgFound) =>
      var Promoted(u, first) := s.attempts[a];
      s.(roles := if orgFound then s.roles[u := if first then Owner else Member] else s.roles,
         attempts := s.attempts[a := Registered(u, first)])
  }

  /** The stored tables, updated step by step. */
  class UserManager {
    const config: Option<string>
    var users: seq<User>
    var attempts: map<nat, Phase>
    var roles: map<nat, OrgRole>

    function Value(): State
      reads this
    {
      State(users, attempts, roles)
    }

    constructor (config: Option<string>)
      ensures Value() == INITIAL && this.config == config
    {
      this.config := config;
      users, attempts, roles := [], map[], map[];
    }

    method ValidateEmail(a: nat, email: string, domainAllowed: bool) returns (ok: bool)
      requires a !in attempts
      modifies this
      ensures Value() == Next(config, old(Value()), Validate(a, email, domainAllowed))
      ensures users == old(users) && roles == old(roles)
      ensures users == [] ==> (ok <==> config.Some? && config.value != "" && email == config.value)
      ensures users != [] ==> (ok <==> domainAllowed)
      ensures attempts == old(attempts)[a := if ok then Validated(email) else Closed]
    {
      ok := false;
      attempts := attempts[a := Closed];
      if |users| == 0 {
        if config.None? || config.value == "" {
          return;
        }
        if email != config.value {
          return;
        }
      } else if !domainAllowed {
        return;
      }
      attempts := attempts[a := Validated(email)];
      ok := true;
    }

    method CreateUser(a: nat, created: bool)
      requires a in attempts && attempts[a].Validated?
      modifies this
      ensures Value() == Next(config, old(Value()), Create(a, created))
      ensures roles == old(roles)
      ensures var email := old(attempts)[a].email;
              if created && forall i :: 0 <= i < |old(users)| ==> old(users)[i].email != email
              then users == old(users) + [User(email, false)] && attempts == old(attempts)[a := Stored(|old(users)|)]
              else users == old(users) && attempts == old(attempts)[a := Closed]
    {
      var email := attempts[a].email;
      for i := 0 to |users|
        invariant forall k :: 0 <= k < i ==> users[k].email != email
        invariant Value() == old(Value())
      {
        if users[i].email == email {
          attempts := attempts[a := Closed];
          return;
        }
      }
      if !created {
        attempts := attempts[a := Closed];
        return;
      }
      attempts := attempts[a := Stored(|users|)];
      users := users + [User(email, false)];
    }

    /** Is this the first user? */
    method CheckFirst(a: nat)
      requires a in attempts && attempts[a].Stored? && attempts[a].user < |users|
      modifies this`attempts
      ensures Value() == Next(config, old(Value()), Decide(a))
      ensures var u := old(attempts)[a].user;
              attempts == old(attempts)[a := Decided(u, |users| == 1 && config == Some(users[u].email)
                                                        && users[u].email != "")]
    {
      var u := attempts[a].user;
      var first := |users| == 1 && config.Some? && config.value != "" && users[u].email == config.value;
      attempts := attempts[a := Decided(u, first)];
    }

    /** Bypasses the checks of an ordinary update. */
    method PromoteUser(a: nat)
      requires a in attempts && attempts[a].Decided? && attempts[a].user < |users|
      modifies this`users, this`attempts
      ensures Value() == Next(config, old(Value()), Promote(a))
      ensures var u, first := old(attempts)[a].user, old(attempts)[a].first;
              && attempts == old(attempts)[a := Promoted(u, first)]
              && users == if first then old(users)[u := User(old(users)[u].email, true)] else old(users)
    {
      var u, first := attempts[a].user, attempts[a].first;
      if first {
        users := users[u := users[u].(superuser := true)];
      }
      attempts := attempts[a := Promoted(u, first)];
    }

    method AddToOrganization(a: nat, orgFound: bool)
      requires a in attempts && attempts[a].Promoted?
      modifies this`roles, this`attempts
      ensures Value() == Next(config, old(Value()), Join(a, orgFound))
      ensures var u, first := old(attempts)[a].user, old(attempts)[a].first;
              && attempts == old(attempts)[a := Registered(u, first)]
              && roles == if orgFound then old(roles)[u := if first then Owner else Member] else old(roles)
    {
      var u, first := attempts[a].user, attempts[a].first;
      if orgFound {
        roles := roles[u := if first then Owner else Member];
      }
      attempts := attempts[a := Registered(u, first)];
    }

    /** `on_after_register` when no other attempt steps in between. */
    method OnAfterRegister(a: nat, orgFound: bool)
      requires a in attempts && attempts[a].Stored? && attempts[a].user < |users|
      modifies this
      ensures var decided := Next(config, old(Value()), Decide(a));
              Value() == Next(config, Next(config, decided, Promote(a)), Join(a, orgFound))
    {
      CheckFirst(a);
      PromoteUser(a);
      AddToOrganization(a, orgFound);
    }
  }

  // ------------------------------------------------- every interleaving

  /** The user an attempt has stored. */
  function UserOf(p: Phase): Option<nat> {
    match p
    case Validated(_) => None
    case Stored(u) => Some(u)
    case Decided(u, _) => Some(u)
    case Promoted(u, _) => Some(u)
    case Registered(u, _) => Some(u)
    case Closed => None
  }

  /** The attempt has found its user to be the first. */
  predicate SawFirst(p: Phase) {
    (p.Decided? || p.Promoted? || p.Registered?) && p.first
  }

  predicate PastPromotion(p: Phase) {
    p.Promoted? || p.Registered?
  }

  /** Emails are unique and the first stored user has the designated one; while there is
      no user, only the designated email is validated. */
  ghost predicate EmailsOk(config: Option<string>, s: State) {
    && (forall i, j :: 0 <= i < j < |s.users| ==> s.users[i].email != s.users[j].email)
    && (s.users != [] ==> Designated(config, s.users[0].email))
    && (s.users == [] ==>
          forall a :: a in s.attempts && s.attempts[a].Validated? ==> Designated(config, s.attempts[a].email))
  }

  /** Every stored user belongs to one attempt. */
  ghost predicate UsersOwned(s: State) {
    && (forall a :: a in s.attempts && UserOf(s.attempts[a]).Some? ==> UserOf(s.attempts[a]).value < |s.users|)
    && (forall a, b :: a in s.attempts && b in s.attempts && a != b && UserOf(s.attempts[a]).Some? ==>
          UserOf(s.attempts[a]) != UserOf(s.attempts[b]))
  }

  /** Attempt `a` has promoted user `u`. */
  ghost predicate HasPromoted(s: State, a: nat, u: nat) {
    a in s.attempts && SawFirst(s.attempts[a]) && PastPromotion(s.attempts[a]) && s.attempts[a].user == u
  }

  /** Only attempts that saw their user alone promote, and that user is the first. */
  ghost predicate PromotionOk(s: State) {
    && (forall a :: a in s.attempts && SawFirst(s.attempts[a]) ==> s.attempts[a].user == 0)
    && (forall i :: 0 <= i < |s.users| && s.users[i].superuser ==> exists a :: HasPromoted(s, a, i))
    && (forall a: nat, i: nat :: HasPromoted(s, a, i) ==> i < |s.users| && s.users[i].superuser)
    && (forall u :: u in s.roles && s.roles[u].Owner? ==> exists a :: HasPromoted(s, a, u))
  }

  ghost predicate Invariant(config: Option<string>, s: State) {
    EmailsOk(config, s) && UsersOwned(s) && PromotionOk(s)
  }

  lemma PromotionSurvives(config: Option<string>, s: State, step: Step, a: nat, u: nat)
    requires UsersOwned(s) && Enabled(s, step) && HasPromoted(s, a, u)
    ensures HasPromoted(Next(config, s, step), a, u)
  {
  }

  lemma StepKeepsPromotion(config: Option<string>, s: State, step: Step)
    requires UsersOwned(s) && PromotionOk(s) && Enabled(s, step)
    ensures PromotionOk(Next(config, s, step))
  {
    var t := Next(config, s, step);
    forall a: nat, u: nat | HasPromoted(s, a, u)
      ensures HasPromoted(t, a, u)
    {
      PromotionSurvives(config, s, step, a, u);
    }
    forall i | 0 <= i < |t.users| && t.users[i].superuser
      ensures exists a :: HasPromoted(t, a, i)
    {
      if !(i < |s.users| && s.users[i].superuser) {
        assert HasPromoted(t, step.attempt, i);
      }
    }
    forall u | u in t.roles && t.roles[u].Owner?
      ensures exists a :: HasPromoted(t, a, u)
    {
      if !(u in s.roles && s.roles[u].Owner?) {
        assert HasPromoted(t, step.attempt, u);
      }
    }
    forall a: nat, i: nat | HasPromoted(t, a, i)
      ensures i < |t.users| && t.users[i].superuser
    {
      if !HasPromoted(s, a, i) {
        assert a == step.attempt;
      }
    }
  }

  lemma StepKeepsInvariant(config: Option<string>, s: State, step: Step)
    requires Invariant(config, s) && Enabled(s, step)
    ensures Invariant(config, Next(config, s, step))
  {
    StepKeepsEmails(config, s, step);
    StepKeepsOwnership(config, s, step);
    StepKeepsPromotion(config, s, step);
  }

  lemma StepKeepsEmails(config: Option<string>, s: State, step: Step)
    requires EmailsOk(config, s) && Enabled(s, step)
    ensures EmailsOk(config, Next(config, s, step))
  {
  }

  lemma StepKeepsOwnership(config: Option<string>, s: State, step: Step)
    requires UsersOwned(s) && Enabled(s, step)
    ensures UsersOwned(Next(config, s, step))
  {
  }

  // ------------------------------------------------- runs

  /** A run: every step is enabled in the state the ones before it have led to. */
  ghost predicate IsRun(config: Option<string>, s: State, run: seq<Step>)
    decreases |run|
  {
    run == [] || (Enabled(s, run[0]) && IsRun(config, Next(config, s, run[0]), run[1..]))
  }

  ghost function Final(config: Option<string>, s: State, run: seq<Step>): State
    requires IsRun(config, s, run)
    decreases |run|
  {
    if run == [] then s else Final(config, Next(config, s, run[0]), run[1..])
  }

  lemma {:induction false} RunKeepsInvariant(config: Option<string>, s: State, run: seq<Step>)
    requires Invariant(config, s) && IsRun(config, s, run)
    ensures Invariant(config, Final(config, s, run))
    decreases |run|
  {
    if run != [] {
      StepKeepsInvariant(config, s, run[0]);
      RunKeepsInvariant(config, Next(config, s, run[0]), run[1..]);
    }
  }

  /** In every interleaving the first stored user has the designated email, and only that
      user can become superuser or owner. */
  lemma OnlyDesignatedUserPromoted(config: Option<string>, run: seq<Step>)
    requires IsRun(config, INITIAL, run)
    ensures var s := Final(config, INITIAL, run);
            && (s.users != [] ==> Designated(config, s.users[0].email))
            && (forall i :: 0 <= i < |s.users| && s.users[i].superuser ==> i == 0)
            && (forall u :: u in s.roles && s.roles[u].Owner? ==> u == 0 && |s.users| > 0 && s.users[0].superuser)
            && (forall i :: 0 < i < |s.users| ==> !Designated(config, s.users[i].email))
  {
    RunKeepsInvariant(config, INITIAL, run);
  }

  /** Once the first user's attempt is through, that user is superuser exactly when the
      attempt's check had found it alone. */
  lemma FirstUserPromotedIffAlone(config: Option<string>, run: seq<Step>, a: nat)
    requires IsRun(config, INITIAL, run)
    requires var s := Final(config, INITIAL, run);
             a in s.attempts && s.attempts[a].Registered? && s.attempts[a].user == 0
    ensures var s := Final(config, INITIAL, run);
            |s.users| > 0 && (s.users[0].superuser <==> s.attempts[a].first)
  {
    RunKeepsInvariant(config, INITIAL, run);
    var s := Final(config, INITIAL, run);
    assert UserOf(s.attempts[a]) == Some(0);
    if s.attempts[a].first {
      assert HasPromoted(s, a, 0);
    }
    if s.users[0].superuser {
      var b :| HasPromoted(s, b, 0);
      assert UserOf(s.attempts[b]) == Some(0);
    }
  }

  /** Nobody has found the first user alone, and it is no longer alone. */
  ghost predicate PromotionMissed(s: State) {
    |s.users| >= 2 && forall a :: a in s.attempts ==> !SawFirst(s.attempts[a])
  }

  /** A promotion is missed for good once a second user is stored before the first one's
      check: nobody is superuser or owner then, or after any further steps. */
  lemma {:induction false} MissedForGood(config: Option<string>, s: State, run: seq<Step>)
    requires Invariant(config, s) && PromotionMissed(s) && IsRun(config, s, run)
    ensures var t := Final(config, s, run);
            && PromotionMissed(t)
            && (forall i :: 0 <= i < |t.users| ==> !t.users[i].superuser)
            && (forall u :: u in t.roles ==> t.roles[u].Member?)
    decreases |run|
  {
    if run != [] {
      StepKeepsInvariant(config, s, run[0]);
      MissedForGood(config, Next(config, s, run[0]), run[1..]);
    }
  }

  /** The first user's attempt settles it: its check says yes exactly when no second user
      has been stored by then. */
  lemma FirstCheckDecides(config: Option<string>, s: State, a: nat)
    requires Invariant(config, s) && Enabled(s, Decide(a))
    ensures SawFirst(Next(config, s, Decide(a)).attempts[a]) <==> |s.users| == 1
    ensures s.attempts[a].user == 0 && |s.users| >= 2 ==> PromotionMissed(Next(config, s, Decide(a)))
  {
    assert UserOf(s.attempts[a]) == Some(s.attempts[a].user);
  }

  // ------------------------------------------------- the check in its run

  lemma {:induction false} SplitRun(config: Option<string>, s: State, run: seq<Step>, d: nat)
    requires IsRun(config, s, run) && d <= |run|
    ensures IsRun(config, s, run[..d])
    ensures var middle := Final(config, s, run[..d]);
            IsRun(config, middle, run[d..]) && Final(config, middle, run[d..]) == Final(config, s, run)
    decreases |run|
  {
    if d == 0 {
      assert run[..0] == [] && run[0..] == run;
    } else {
      SplitRun(config, Next(config, s, run[0]), run[1..], d - 1);
      assert run[..d][1..] == run[1..][..d - 1];
      assert run[1..][d - 1..] == run[d..];
    }
  }

  predicate PastCheck(p: Phase) {
    p.Decided? || p.Promoted? || p.Registered?
  }

  /** The answer of the check is never revised. */
  lemma {:induction false} AnswerPersists(config: Option<string>, s: State, run: seq<Step>, a: nat)
    requires IsRun(config, s, run) && a in s.attempts && PastCheck(s.attempts[a])
    ensures var t := Final(config, s, run);
            && a in t.attempts && PastCheck(t.attempts[a])
            && t.attempts[a].user == s.attempts[a].user && t.attempts[a].first == s.attempts[a].first
    decreases |run|
  {
    if run != [] {
      AnswerPersists(config, Next(config, s, run[0]), run[1..], a);
    }
  }

  /** An attempt that is through has made its check in the run. */
  lemma {:induction false} RegisteredHasCheck(config: Option<string>, s: State, run: seq<Step>, a: nat) returns (d: nat)
    requires IsRun(config, s, run) && (a in s.attempts ==> !PastCheck(s.attempts[a]))
    requires var t := Final(config, s, run);
             a in t.attempts && t.attempts[a].Registered?
    ensures d < |run| && run[d] == Decide(a)
    decreases |run|
  {
    if run[0] == Decide(a) {
      d := 0;
    } else {
      d := RegisteredHasCheck(config, Next(config, s, run[0]), run[1..], a);
      d := d + 1;
    }
  }

  /** Once its attempt is through, the first user is superuser exactly when nobody else
      was stored at the moment of its check. */
  lemma SuperuserIffAloneAtCheck(config: Option<string>, run: seq<Step>, a: nat, d: nat)
    requires IsRun(config, INITIAL, run) && d < |run| && run[d] == Decide(a)
    requires var s := Final(config, INITIAL, run);
             a in s.attempts && s.attempts[a].Registered? && s.attempts[a].user == 0
    ensures IsRun(config, INITIAL, run[..d])
    ensures var s := Final(config, INITIAL, run);
            |s.users| > 0 && (s.users[0].superuser <==> |Final(config, INITIAL, run[..d]).users| == 1)
  {
    SplitRun(config, INITIAL, run, d);
    var before := Final(config, INITIAL, run[..d]);
    RunKeepsInvariant(config, INITIAL, run[..d]);
    assert run[d..][0] == run[d];
    var after := Next(config, before, run[d]);
    AnswerPersists(config, after, run[d..][1..], a);
    FirstCheckDecides(config, before, a);
    FirstUserPromotedIffAlone(config, run, a);
  }

  // ------------------------------------------------- who gets in, and as what

  /** The email an attempt has validated or stored. */
  ghost function EmailOf(s: State, a: nat): Option<string>
    requires a in s.attempts
  {
    var p := s.attempts[a];
    if p.Validated? then Some(p.email)
    else if UserOf(p).Some? && UserOf(p).value < |s.users| then Some(s.users[UserOf(p).value].email)
    else None
  }

  lemma StepKeepsEmail(config: Option<string>, s: State, step: Step, a: nat)
    requires UsersOwned(s) && Enabled(s, step) && a in s.attempts
    ensures var t := Next(config, s, step);
            a in t.attempts && (EmailOf(t, a).Some? ==> EmailOf(t, a) == EmailOf(s, a))
  {
  }

  lemma {:induction false} EmailIsKept(config: Option<string>, s: State, run: seq<Step>, a: nat)
    requires UsersOwned(s) && IsRun(config, s, run) && a in s.attempts
    ensures var t := Final(config, s, run);
            a in t.attempts && (EmailOf(t, a).Some? ==> EmailOf(t, a) == EmailOf(s, a))
    decreases |run|
  {
    if run != [] {
      StepKeepsEmail(config, s, run[0], a);
      StepKeepsOwnership(config, s, run[0]);
      EmailIsKept(config, Next(config, s, run[0]), run[1..], a);
    }
  }

  /** The step asks for an email that may register: on an empty table the configured one,
      later one from an allowed domain. */
  ghost predicate Admits(config: Option<string>, s: State, step: Step) {
    && step.Validate?
    && if s.users == [] then config.Some? && config.value != "" && step.email == config.value else step.domainAllowed
  }

  lemma {:induction false} WasAdmitted(config: Option<string>, s: State, run: seq<Step>, a: nat) returns (v: nat)
    requires UsersOwned(s) && IsRun(config, s, run) && a !in s.attempts
    requires var t := Final(config, s, run); a in t.attempts && EmailOf(t, a).Some?
    ensures v < |run| && IsRun(config, s, run[..v]) && Admits(config, Final(config, s, run[..v]), run[v])
    ensures run[v].attempt == a && EmailOf(Final(config, s, run), a) == Some(run[v].email)
    decreases |run|
  {
    var next := Next(config, s, run[0]);
    StepKeepsOwnership(config, s, run[0]);
    if a in next.attempts {
      v := 0;
      EmailIsKept(config, next, run[1..], a);
    } else {
      v := WasAdmitted(config, next, run[1..], a);
      v := v + 1;
      assert run[..v][1..] == run[1..][..v - 1];
    }
  }

  ghost predicate HasAttempt(s: State, u: nat) {
    exists a :: a in s.attempts && UserOf(s.attempts[a]) == Some(u)
  }

  lemma StepKeepsAttempts(config: Option<string>, s: State, step: Step, u: nat)
    requires Enabled(s, step) && (u < |s.users| ==> HasAttempt(s, u)) && u < |Next(config, s, step).users|
    ensures HasAttempt(Next(config, s, step), u)
  {
    var t := Next(config, s, step);
    if u < |s.users| {
      var a :| a in s.attempts && UserOf(s.attempts[a]) == Some(u);
      assert UserOf(t.attempts[a]) == Some(u);
    } else {
      assert UserOf(t.attempts[step.attempt]) == Some(u);
    }
  }

  lemma {:induction false} UserHasAttempt(config: Option<string>, s: State, run: seq<Step>, u: nat)
    requires IsRun(config, s, run) && (u < |s.users| ==> HasAttempt(s, u)) && u < |Final(config, s, run).users|
    ensures HasAttempt(Final(config, s, run), u)
    decreases |run|
  {
    if run != [] {
      var next := Next(config, s, run[0]);
      if u < |next.users| {
        StepKeepsAttempts(config, s, run[0], u);
      }
      UserHasAttempt(config, next, run[1..], u);
    }
  }

  /** In every interleaving each stored user has registered an email that was admitted: the
      configured one while the table was empty, one from an allowed domain otherwise. */
  lemma StoredUserWasAdmitted(config: Option<string>, run: seq<Step>, u: nat) returns (v: nat)
    requires IsRun(config, INITIAL, run) && u < |Final(config, INITIAL, run).users|
    ensures v < |run| && IsRun(config, INITIAL, run[..v])
    ensures Admits(config, Final(config, INITIAL, run[..v]), run[v])
    ensures run[v].email == Final(config, INITIAL, run).users[u].email
  {
    UserHasAttempt(config, INITIAL, run, u);
    var t := Final(config, INITIAL, run);
    var a :| a in t.attempts && UserOf(t.attempts[a]) == Some(u);
    v := WasAdmitted(config, INITIAL, run, a);
  }

  /** User `u` is through with attempt `a` and has the role. */
  ghost predicate HasRole(s: State, a: nat, u: nat, role: OrgRole) {
    a in s.attempts && s.attempts[a].Registered? && s.attempts[a].user == u && u in s.roles && s.roles[u] == role
  }

  lemma {:induction false} RoleIsKept(config: Option<string>, s: State, run: seq<Step>, a: nat, u: nat, role: OrgRole)
    requires UsersOwned(s) && IsRun(config, s, run) && HasRole(s, a, u, role)
    ensures HasRole(Final(config, s, run), a, u, role)
    ensures Final(config, s, run).attempts[a] == s.attempts[a]
    decreases |run|
  {
    if run != [] {
      StepKeepsOwnership(config, s, run[0]);
      assert UserOf(s.attempts[a]) == Some(u);
      RoleIsKept(config, Next(config, s, run[0]), run[1..], a, u, role);
    }
  }

  /** In every interleaving a user that joins an organization ends up as its owner if it is
      superuser, and as a member if not. */
  lemma OwnerIffSuperuser(config: Option<string>, run: seq<Step>, a: nat, j: nat) returns (u: nat)
    requires IsRun(config, INITIAL, run) && j < |run| && run[j] == Join(a, true)
    ensures var s := Final(config, INITIAL, run);
            && u < |s.users| && a in s.attempts && UserOf(s.attempts[a]) == Some(u)
            && u in s.roles && (s.roles[u] == Owner <==> s.users[u].superuser)
  {
    SplitRun(config, INITIAL, run, j);
    var before := Final(config, INITIAL, run[..j]);
    RunKeepsInvariant(config, INITIAL, run[..j]);
    RunKeepsInvariant(config, INITIAL, run);
    assert run[j..][0] == run[j];
    var after := Next(config, before, run[j]);
    StepKeepsInvariant(config, before, run[j]);
    u := after.attempts[a].user;
    var first := after.attempts[a].first;
    RoleIsKept(config, after, run[j..][1..], a, u, if first then Owner else Member);
    var s := Final(config, INITIAL, run);
    assert UserOf(s.attempts[a]) == Some(u);
    if first {
      assert HasPromoted(s, a, u);
    }
    if s.users[u].superuser {
      var b :| HasPromoted(s, b, u);
      assert UserOf(s.attempts[b]) == Some(u);
    }
  }

  /** Two attempts that overlap leave an installation without any superuser. */
  lemma NobodyPromoted(email: string, other: string) returns (run: seq<Step>)
    requires email != "" && other != email
    ensures IsRun(Some(email), INITIAL, run)
    ensures var s := Final(Some(email), INITIAL, run);
            |s.users| == 2 && s.users[0].email == email && PromotionMissed(s)
  {
    run := [Validate(0, email, true), Create(0, true), Validate(1, other, true), Create(1, true), Decide(0)];
    var s1 := State([], map[0 := Validated(email)], map[]);
    var s2 := State([User(email, false)], map[0 := Stored(0)], map[]);
    var s3 := State([User(email, false)], map[0 := Stored(0), 1 := Validated(other)], map[]);
    var s4 := State([User(email, false), User(other, false)], map[0 := Stored(0), 1 := Stored(1)], map[]);
    var s5 := s4.(attempts := map[0 := Decided(0, false), 1 := Stored(1)]);
    var states := [INITIAL, s1, s2, s3, s4, s5];
    RunOfStates(Some(email), run, states, 0);
    assert run[0..] == run;
  }

  /** A list of states that follow one another witnesses a run. */
  lemma {:induction false} RunOfStates(config: Option<string>, run: seq<Step>, states: seq<State>, k: nat)
    requires k <= |run| && |states| == |run| + 1
    requires forall i :: 0 <= i < |run| ==>
               Enabled(states[i], run[i]) && states[i + 1] == Next(config, states[i], run[i])
    ensures IsRun(config, states[k], run[k..]) && Final(config, states[k], run[k..]) == states[|run|]
    decreases |run| - k
  {
    if k < |run| {
      RunOfStates(config, run, states, k + 1);
      assert run[k..][1..] == run[k + 1..];
    }
  }
}
