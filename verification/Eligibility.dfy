/**
 Participation eligibility, derived from dated records every time it is asked. The store reduces
 the records to a few expiry dates (latest per requirement, earliest across roles) and one
 comparison with the clock decides; the rule it must implement quantifies over the records.

 Dates are day numbers and instants are seconds, both in UTC.
 */
module Eligibility {
  import opened Wrappers
  import opened Catalog

  type Day = int
  type Instant = int

  const DAY := 86400

  function DateOf(now: Instant): Day {
    now / DAY
  }

  // ---------------------------------------------------------------- the rule on reduced inputs

  datatype Requirement = SafeSport | BackgroundCheck | RoleCredential

  datatype Status = Eligible | Suspended | Lapsed

  datatype Reason = ActiveHold(sources: seq<string>) | Missing(what: Requirement) | Expired(what: Requirement) | AllCurrent

  datatype Decision = Decision(status: Status, reason: Reason)

  datatype Inputs = Inputs(now: Instant, safeSport: Option<Day>, background: Option<Day>, holds: seq<string>,
                           graceDays: int, roleRequired: bool, role: Option<Day>)

  /** An expiry date is inclusive: valid until the midnight after it, plus any grace. */
  predicate Current(now: Instant, expires: Option<Day>, graceDays: int) {
    expires.Some? && now < (expires.value + 1) * DAY + graceDays * DAY
  }

  function Required(inputs: Inputs): seq<(Requirement, Option<Day>)> {
    [(SafeSport, inputs.safeSport), (BackgroundCheck, inputs.background)]
    + if inputs.roleRequired then [(RoleCredential, inputs.role)] else []
  }

  function FirstFailure(inputs: Inputs, required: seq<(Requirement, Option<Day>)>): Decision {
    if required == [] then Decision(Eligible, AllCurrent)
    else
      var (what, expires) := required[0];
      if expires == None then Decision(Lapsed, Missing(what))
      else if !Current(inputs.now, expires, inputs.graceDays) then Decision(Lapsed, Expired(what))
      else FirstFailure(inputs, required[1..])
  }

  function Evaluate(inputs: Inputs): Decision {
    if inputs.holds != [] then Decision(Suspended, ActiveHold(inputs.holds)) else FirstFailure(inputs, Required(inputs))
  }

  /** The list is judged in order: training, check, role credential. */
  lemma EvaluateInOrder(inputs: Inputs)
    requires inputs.holds == []
    ensures Evaluate(inputs) ==
            if inputs.safeSport == None then Decision(Lapsed, Missing(SafeSport))
            else if !Current(inputs.now, inputs.safeSport, inputs.graceDays) then Decision(Lapsed, Expired(SafeSport))
            else if inputs.background == None then Decision(Lapsed, Missing(BackgroundCheck))
            else if !Current(inputs.now, inputs.background, inputs.graceDays) then Decision(Lapsed, Expired(BackgroundCheck))
            else if inputs.roleRequired && inputs.role == None then Decision(Lapsed, Missing(RoleCredential))
            else if inputs.roleRequired && !Current(inputs.now, inputs.role, inputs.graceDays) then Decision(Lapsed, Expired(RoleCredential))
            else Decision(Eligible, AllCurrent)
  {
    var last := if inputs.roleRequired then [(RoleCredential, inputs.role)] else [];
    var check := [(BackgroundCheck, inputs.background)] + last;
    assert Required(inputs) == [(SafeSport, inputs.safeSport)] + check;
    assert Required(inputs)[1..] == check && check[1..] == last;
    var none: seq<(Requirement, Option<Day>)> := [];
    if inputs.roleRequired {
      assert last[1..] == none;
    }
    assert FirstFailure(inputs, none) == Decision(Eligible, AllCurrent);
    assert FirstFailure(inputs, last) ==
      if inputs.roleRequired && inputs.role == None then Decision(Lapsed, Missing(RoleCredential))
      else if inputs.roleRequired && !Current(inputs.now, inputs.role, inputs.graceDays) then Decision(Lapsed, Expired(RoleCredential))
      else Decision(Eligible, AllCurrent);
    assert FirstFailure(inputs, check) ==
      if inputs.background == None then Decision(Lapsed, Missing(BackgroundCheck))
      else if !Current(inputs.now, inputs.background, inputs.graceDays) then Decision(Lapsed, Expired(BackgroundCheck))
      else FirstFailure(inputs, last);
  }

  // ---------------------------------------------------------------- the records

  datatype Role = Learner | Instructor | Admin | Coach | Referee

  datatype CheckStatus = Pending | Approved | Declined

  datatype Member = Member(subject: Option<string>, roles: set<Role>)

  datatype Check = Check(member: Uuid, status: CheckStatus, approvedAt: Day, expiresAt: Day)

  datatype Training = Training(member: Uuid, completedAt: Day, expiresAt: Day)

  datatype Credential = Credential(member: Uuid, role: Role, credentialType: string, issuedAt: Day, expiresAt: Day)

  datatype Hold = Hold(member: Uuid, source: string, placedAt: Instant, liftedAt: Option<Instant>)

  // Rows come in whatever order the database keeps them.
  datatype Records = Records(members: map<Uuid, Member>, checks: seq<Check>, trainings: seq<Training>,
                             credentials: seq<Credential>, holds: seq<Hold>)

  predicate CheckCounts(r: Check, member: Uuid, now: Instant) {
    r.member == member && r.status == Approved && r.approvedAt <= DateOf(now)
  }

  predicate TrainingCounts(r: Training, member: Uuid, now: Instant) {
    r.member == member && r.completedAt <= DateOf(now)
  }

  predicate CredentialCounts(r: Credential, member: Uuid, role: Role, now: Instant) {
    r.member == member && r.role == role && r.issuedAt <= DateOf(now)
  }

  predicate IsActive(h: Hold, member: Uuid, now: Instant) {
    h.member == member && h.liftedAt == None && h.placedAt <= now
  }

  function CheckExpiries(rs: Records, member: Uuid, now: Instant): set<Day> {
    set r | r in rs.checks && CheckCounts(r, member, now) :: r.expiresAt
  }

  function TrainingExpiries(rs: Records, member: Uuid, now: Instant): set<Day> {
    set r | r in rs.trainings && TrainingCounts(r, member, now) :: r.expiresAt
  }

  function CredentialExpiries(rs: Records, member: Uuid, role: Role, now: Instant): set<Day> {
    set r | r in rs.credentials && CredentialCounts(r, member, role, now) :: r.expiresAt
  }

  /** The roles of a member that need a credential. */
  function Needed(rs: Records, member: Uuid): set<Role>
    requires member in rs.members
  {
    rs.members[member].roles * {Coach, Referee}
  }

  function ActiveSources(holds: seq<Hold>, member: Uuid, now: Instant): seq<string> {
    if holds == [] then []
    else (if IsActive(holds[0], member, now) then [holds[0].source] else []) + ActiveSources(holds[1..], member, now)
  }

  // ---------------------------------------------------------------- the reduction

  /** SQL max: NULL over no rows. */
  ghost predicate IsLatest(o: Option<Day>, days: set<Day>) {
    match o
    case None => days == {}
    case Some(d) => d in days && forall x | x in days :: x <= d
  }

  /** What LoadSafeguardingInputs computes from the records, when the database's clock reads `read`. */
  ghost predicate Reduces(rs: Records, member: Uuid, inputs: Inputs, read: Instant)
    requires member in rs.members
  {
    && IsLatest(inputs.background, CheckExpiries(rs, member, read))
    && IsLatest(inputs.safeSport, TrainingExpiries(rs, member, read))
    && inputs.holds == ActiveSources(rs.holds, member, read)
    && (inputs.roleRequired <==> Needed(rs, member) != {})
    && IsWeakest(rs, member, inputs.role, read)
  }

  /** None when some role has no credential, and the earliest of the roles' latest expiries otherwise. */
  ghost predicate IsWeakest(rs: Records, member: Uuid, o: Option<Day>, read: Instant)
    requires member in rs.members
  {
    var needed := Needed(rs, member);
    match o
    case None => needed == {} || exists role | role in needed :: CredentialExpiries(rs, member, role, read) == {}
    case Some(d) =>
      && (forall role | role in needed :: exists x | x in CredentialExpiries(rs, member, role, read) :: d <= x)
      && (exists role | role in needed :: IsLatest(Some(d), CredentialExpiries(rs, member, role, read)))
  }

  /** The same when both clocks read alike. */
  ghost predicate Describes(rs: Records, member: Uuid, inputs: Inputs)
    requires member in rs.members
  {
    Reduces(rs, member, inputs, inputs.now)
  }

  method MaxDate(days: set<Day>) returns (latest: Option<Day>)
    ensures IsLatest(latest, days)
  {
    latest := None;
    var rest := days;
    ghost var seen := {};
    while rest != {}
      invariant rest + seen == days
      invariant IsLatest(latest, seen)
      decreases rest
    {
      assert (forall d :: d !in rest) ==> rest == {};
      var d :| d in rest;
      if latest == None || latest.value < d {
        latest := Some(d);
      }
      rest := rest - {d};
      seen := seen + {d};
    }
  }

  /** `now` is read first, by the program; `read` later, by the database. */
  method LoadSafeguardingInputs(rs: Records, member: Uuid, now: Instant, read: Instant) returns (inputs: Option<Inputs>)
    ensures inputs == None <==> member !in rs.members
    ensures inputs.Some? ==> inputs.value.now == now && inputs.value.graceDays == 0 && Reduces(rs, member, inputs.value, read)
    ensures inputs.Some? ==> (Evaluate(inputs.value).status == Eligible <==> MayTakePart(rs, member, now, read))
    ensures inputs.Some? ==> inputs.value.holds == SourcesInOrder(rs.holds, member, read)
  {
    if member !in rs.members {
      return None;
    }
    var background := MaxDate(CheckExpiries(rs, member, read));
    var safeSport := MaxDate(TrainingExpiries(rs, member, read));
    var needed := Needed(rs, member);
    var required, missing, weakest: Option<Day> := false, false, None;
    var rest := needed;
    while rest != {}
      invariant rest <= needed && (required <==> rest != needed)
      invariant missing <==> exists role | role in needed - rest :: CredentialExpiries(rs, member, role, read) == {}
      invariant forall role | role in needed - rest ::
                  CredentialExpiries(rs, member, role, read) != {} ==>
                    weakest.Some? && exists x | x in CredentialExpiries(rs, member, role, read) :: weakest.value <= x
      invariant weakest.Some? ==>
                  exists role | role in needed - rest :: IsLatest(weakest, CredentialExpiries(rs, member, role, read))
      decreases rest
    {
      var role :| role in rest;
      var latest := MaxDate(CredentialExpiries(rs, member, role, read));
      ghost var seen := needed - rest;
      rest := rest - {role};
      assert needed - rest == seen + {role};
      required := true;
      if latest == None {
        missing := true;
      } else if weakest == None || latest.value < weakest.value {
        weakest := latest;
      }
    }
    assert needed - rest == needed;
    var roleExpires := if required && !missing then weakest else None;
    inputs := Some(Inputs(now, safeSport, background, ActiveSources(rs.holds, member, read), 0, required, roleExpires));
    EligibleExactly(rs, member, inputs.value, read);
    SourcesAreInOrder(rs.holds, member, read);
  }

  // ---------------------------------------------------------------- the rule on records

  // The rule speaks of the rows' own fields, and of days as 86,400 seconds.

  ghost predicate Held(rs: Records, member: Uuid, now: Instant) {
    exists h | h in rs.holds :: h.member == member && h.liftedAt == None && h.placedAt <= now
  }

  ghost predicate CheckOnFile(rs: Records, member: Uuid, now: Instant) {
    exists r | r in rs.checks :: r.member == member && r.status == Approved && r.approvedAt * 86_400 <= now
  }

  ghost predicate HasCheck(rs: Records, member: Uuid, now: Instant, grace: int) {
    exists r | r in rs.checks ::
      r.member == member && r.status == Approved && r.approvedAt * 86_400 <= now < (r.expiresAt + 1 + grace) * 86_400
  }

  ghost predicate TrainingOnFile(rs: Records, member: Uuid, now: Instant) {
    exists r | r in rs.trainings :: r.member == member && r.completedAt * 86_400 <= now
  }

  ghost predicate HasTraining(rs: Records, member: Uuid, now: Instant, grace: int) {
    exists r | r in rs.trainings :: r.member == member && r.completedAt * 86_400 <= now < (r.expiresAt + 1 + grace) * 86_400
  }

  ghost predicate CredentialOnFile(rs: Records, member: Uuid, role: Role, now: Instant) {
    exists r | r in rs.credentials :: r.member == member && r.role == role && r.issuedAt * 86_400 <= now
  }

  ghost predicate HasCredential(rs: Records, member: Uuid, role: Role, now: Instant, grace: int) {
    exists r | r in rs.credentials ::
      r.member == member && r.role == role && r.issuedAt * 86_400 <= now < (r.expiresAt + 1 + grace) * 86_400
  }

  predicate NeedsCredential(rs: Records, member: Uuid, role: Role)
    requires member in rs.members
  {
    role in rs.members[member].roles && (role == Coach || role == Referee)
  }

  /** Eligible, as the documentation states it: no active hold, some approved check and some training
      in effect and unexpired, and for every role that needs one a credential in effect and unexpired. */
  ghost predicate Rule(rs: Records, member: Uuid, now: Instant, grace: int)
    requires member in rs.members
  {
    && !Held(rs, member, now)
    && HasCheck(rs, member, now, grace)
    && HasTraining(rs, member, now, grace)
    && forall role | NeedsCredential(rs, member, role) :: HasCredential(rs, member, role, now, grace)
  }

  /** The decision and the reason the records call for, in order of precedence. */
  ghost function Verdict(rs: Records, member: Uuid, now: Instant, grace: int): Decision
    requires member in rs.members
  {
    if Held(rs, member, now) then Decision(Suspended, ActiveHold(ActiveSources(rs.holds, member, now)))
    else if !TrainingOnFile(rs, member, now) then Decision(Lapsed, Missing(SafeSport))
    else if !HasTraining(rs, member, now, grace) then Decision(Lapsed, Expired(SafeSport))
    else if !CheckOnFile(rs, member, now) then Decision(Lapsed, Missing(BackgroundCheck))
    else if !HasCheck(rs, member, now, grace) then Decision(Lapsed, Expired(BackgroundCheck))
    else if exists role :: NeedsCredential(rs, member, role) && !CredentialOnFile(rs, member, role, now)
      then Decision(Lapsed, Missing(RoleCredential))
    else if exists role :: NeedsCredential(rs, member, role) && !HasCredential(rs, member, role, now, grace)
      then Decision(Lapsed, Expired(RoleCredential))
    else Decision(Eligible, AllCurrent)
  }

  lemma ByDate(d: Day, now: Instant)
    ensures d <= DateOf(now) <==> d * 86_400 <= now
  {
  }

  lemma ByMidnight(d: Day, now: Instant, grace: int)
    ensures Current(now, Some(d), grace) <==> now < (d + 1 + grace) * 86_400
  {
  }

  /** The sources of the holds that are placed and not lifted, in the order of the rows. */
  ghost function SourcesInOrder(holds: seq<Hold>, member: Uuid, now: Instant): seq<string> {
    if holds == [] then []
    else
      var last := holds[|holds| - 1];
      SourcesInOrder(holds[..|holds| - 1], member, now)
      + (if last.member == member && last.liftedAt == None && last.placedAt <= now then [last.source] else [])
  }

  lemma {:induction false} SourcesAppend(holds: seq<Hold>, last: Hold, member: Uuid, now: Instant)
    ensures ActiveSources(holds + [last], member, now)
            == ActiveSources(holds, member, now) + (if IsActive(last, member, now) then [last.source] else [])
    decreases |holds|
  {
    if holds == [] {
      assert [] + [last] == [last] && [last][1..] == [];
      assert ActiveSources([], member, now) == [];
    } else {
      var first := if IsActive(holds[0], member, now) then [holds[0].source] else [];
      assert (holds + [last])[0] == holds[0] && (holds + [last])[1..] == holds[1..] + [last];
      SourcesAppend(holds[1..], last, member, now);
      assert ActiveSources(holds, member, now) == first + ActiveSources(holds[1..], member, now);
    }
  }

  lemma {:induction false} SourcesAreInOrder(holds: seq<Hold>, member: Uuid, now: Instant)
    ensures ActiveSources(holds, member, now) == SourcesInOrder(holds, member, now)
    decreases |holds|
  {
    if holds == [] {
    } else {
      var most, last := holds[..|holds| - 1], holds[|holds| - 1];
      SourcesAreInOrder(most, member, now);
      SourcesAppend(most, last, member, now);
      assert most + [last] == holds;
    }
  }

  lemma {:induction false} SourcesOfActive(holds: seq<Hold>, member: Uuid, now: Instant)
    ensures ActiveSources(holds, member, now) != [] <==> exists h | h in holds :: IsActive(h, member, now)
  {
    if holds == [] {
    } else {
      SourcesOfActive(holds[1..], member, now);
      assert forall h :: h in holds <==> h == holds[0] || h in holds[1..];
    }
  }

  /** The latest expiry is current exactly when some expiry is. */
  lemma LatestCurrent(o: Option<Day>, days: set<Day>, now: Instant, grace: int)
    requires IsLatest(o, days)
    ensures Current(now, o, grace) <==> exists d | d in days :: Current(now, Some(d), grace)
  {
  }

  lemma CheckReduced(rs: Records, member: Uuid, inputs: Inputs)
    requires member in rs.members && Describes(rs, member, inputs)
    ensures inputs.background.Some? <==> CheckOnFile(rs, member, inputs.now)
    ensures Current(inputs.now, inputs.background, inputs.graceDays) <==> HasCheck(rs, member, inputs.now, inputs.graceDays)
  {
    var days := CheckExpiries(rs, member, inputs.now);
    LatestCurrent(inputs.background, days, inputs.now, inputs.graceDays);
    forall r | r in rs.checks
      ensures r.approvedAt * 86_400 <= inputs.now <==> r.approvedAt <= DateOf(inputs.now)
      ensures Current(inputs.now, Some(r.expiresAt), inputs.graceDays) <==> inputs.now < (r.expiresAt + 1 + inputs.graceDays) * 86_400
    {
      ByDate(r.approvedAt, inputs.now);
      ByMidnight(r.expiresAt, inputs.now, inputs.graceDays);
    }
    assert forall r | r in rs.checks && CheckCounts(r, member, inputs.now) :: r.expiresAt in days;
  }

  lemma TrainingReduced(rs: Records, member: Uuid, inputs: Inputs)
    requires member in rs.members && Describes(rs, member, inputs)
    ensures inputs.safeSport.Some? <==> TrainingOnFile(rs, member, inputs.now)
    ensures Current(inputs.now, inputs.safeSport, inputs.graceDays) <==> HasTraining(rs, member, inputs.now, inputs.graceDays)
  {
    var days := TrainingExpiries(rs, member, inputs.now);
    LatestCurrent(inputs.safeSport, days, inputs.now, inputs.graceDays);
    forall r | r in rs.trainings
      ensures r.completedAt * 86_400 <= inputs.now <==> r.completedAt <= DateOf(inputs.now)
      ensures Current(inputs.now, Some(r.expiresAt), inputs.graceDays) <==> inputs.now < (r.expiresAt + 1 + inputs.graceDays) * 86_400
    {
      ByDate(r.completedAt, inputs.now);
      ByMidnight(r.expiresAt, inputs.now, inputs.graceDays);
    }
    assert forall r | r in rs.trainings && TrainingCounts(r, member, inputs.now) :: r.expiresAt in days;
  }

  lemma CredentialDays(rs: Records, member: Uuid, role: Role, now: Instant, grace: int)
    ensures var days := CredentialExpiries(rs, member, role, now);
            && (days != {} <==> CredentialOnFile(rs, member, role, now))
            && (HasCredential(rs, member, role, now, grace) <==> exists d | d in days :: Current(now, Some(d), grace))
  {
    var days := CredentialExpiries(rs, member, role, now);
    forall r | r in rs.credentials
      ensures r.issuedAt * 86_400 <= now <==> r.issuedAt <= DateOf(now)
      ensures Current(now, Some(r.expiresAt), grace) <==> now < (r.expiresAt + 1 + grace) * 86_400
    {
      ByDate(r.issuedAt, now);
      ByMidnight(r.expiresAt, now, grace);
    }
    assert forall r | r in rs.credentials && CredentialCounts(r, member, role, now) :: r.expiresAt in days;
  }

  /** The earliest of the latest expiries is current exactly when every role has a current expiry. */
  lemma WeakestCurrent(rs: Records, member: Uuid, o: Option<Day>, read: Instant, now: Instant, grace: int)
    requires member in rs.members && Needed(rs, member) != {} && IsWeakest(rs, member, o, read)
    ensures Current(now, o, grace) <==>
              forall role | role in Needed(rs, member) ::
                exists d | d in CredentialExpiries(rs, member, role, read) :: Current(now, Some(d), grace)
  {
    if o.Some? && !Current(now, o, grace) {
      var role :| role in Needed(rs, member) && IsLatest(o, CredentialExpiries(rs, member, role, read));
      LatestCurrent(o, CredentialExpiries(rs, member, role, read), now, grace);
    }
  }

  /** ... that is, a current credential. */
  lemma RolesReduced(rs: Records, member: Uuid, inputs: Inputs)
    requires member in rs.members && Describes(rs, member, inputs) && inputs.roleRequired
    ensures inputs.role == None <==>
              exists role | role in Needed(rs, member) :: CredentialExpiries(rs, member, role, inputs.now) == {}
    ensures Current(inputs.now, inputs.role, inputs.graceDays) <==>
              forall role | role in Needed(rs, member) :: HasCredential(rs, member, role, inputs.now, inputs.graceDays)
  {
    var now, grace := inputs.now, inputs.graceDays;
    forall role { CredentialDays(rs, member, role, now, grace); }
    WeakestCurrent(rs, member, inputs.role, now, now, grace);
  }

  /** The weakest-link reduction is exact: the decision taken on the reduced dates, with its reason, is
      the one the quantified rule calls for. */
  lemma ReductionIsExact(rs: Records, member: Uuid, inputs: Inputs)
    requires member in rs.members && Describes(rs, member, inputs)
    ensures Evaluate(inputs) == Verdict(rs, member, inputs.now, inputs.graceDays)
    ensures Evaluate(inputs).status == Eligible <==> Rule(rs, member, inputs.now, inputs.graceDays)
  {
    SourcesOfActive(rs.holds, member, inputs.now);
    NeededOnes(rs, member);
    CheckReduced(rs, member, inputs);
    TrainingReduced(rs, member, inputs);
    if inputs.roleRequired {
      RolesReduced(rs, member, inputs);
      forall role { CredentialDays(rs, member, role, inputs.now, inputs.graceDays); }
    }
    if inputs.holds == [] {
      EvaluateInOrder(inputs);
    }
  }

  lemma NeededOnes(rs: Records, member: Uuid)
    requires member in rs.members
    ensures forall role :: role in Needed(rs, member) <==> NeedsCredential(rs, member, role)
  {
  }

  // With two readings: `read` decides what is in effect and `now` what has expired.

  ghost predicate CheckInForce(rs: Records, member: Uuid, now: Instant, read: Instant) {
    exists r | r in rs.checks ::
      r.member == member && r.status == Approved && r.approvedAt * 86_400 <= read && now < (r.expiresAt + 1) * 86_400
  }

  ghost predicate TrainingInForce(rs: Records, member: Uuid, now: Instant, read: Instant) {
    exists r | r in rs.trainings :: r.member == member && r.completedAt * 86_400 <= read && now < (r.expiresAt + 1) * 86_400
  }

  ghost predicate CredentialInForce(rs: Records, member: Uuid, role: Role, now: Instant, read: Instant) {
    exists r | r in rs.credentials ::
      r.member == member && r.role == role && r.issuedAt * 86_400 <= read && now < (r.expiresAt + 1) * 86_400
  }

  ghost predicate MayTakePart(rs: Records, member: Uuid, now: Instant, read: Instant)
    requires member in rs.members
  {
    && (forall h | h in rs.holds && h.member == member && h.liftedAt == None :: read < h.placedAt)
    && CheckInForce(rs, member, now, read)
    && TrainingInForce(rs, member, now, read)
    && (Coach in rs.members[member].roles ==> CredentialInForce(rs, member, Coach, now, read))
    && (Referee in rs.members[member].roles ==> CredentialInForce(rs, member, Referee, now, read))
  }

  lemma CheckDays(rs: Records, member: Uuid, now: Instant, read: Instant)
    ensures (exists d | d in CheckExpiries(rs, member, read) :: Current(now, Some(d), 0)) <==> CheckInForce(rs, member, now, read)
  {
    forall r | r in rs.checks
      ensures (r.approvedAt <= DateOf(read) <==> r.approvedAt * 86_400 <= read) && (Current(now, Some(r.expiresAt), 0) <==> now < (r.expiresAt + 1) * 86_400)
    {
      ByDate(r.approvedAt, read);
      ByMidnight(r.expiresAt, now, 0);
    }
    assert forall r | r in rs.checks && CheckCounts(r, member, read) :: r.expiresAt in CheckExpiries(rs, member, read);
  }

  lemma TrainingDays(rs: Records, member: Uuid, now: Instant, read: Instant)
    ensures (exists d | d in TrainingExpiries(rs, member, read) :: Current(now, Some(d), 0)) <==> TrainingInForce(rs, member, now, read)
  {
    forall r | r in rs.trainings
      ensures (r.completedAt <= DateOf(read) <==> r.completedAt * 86_400 <= read) && (Current(now, Some(r.expiresAt), 0) <==> now < (r.expiresAt + 1) * 86_400)
    {
      ByDate(r.completedAt, read);
      ByMidnight(r.expiresAt, now, 0);
    }
    assert forall r | r in rs.trainings && TrainingCounts(r, member, read) :: r.expiresAt in TrainingExpiries(rs, member, read);
  }

  lemma RoleDays(rs: Records, member: Uuid, role: Role, now: Instant, read: Instant)
    ensures (exists d | d in CredentialExpiries(rs, member, role, read) :: Current(now, Some(d), 0))
            <==> CredentialInForce(rs, member, role, now, read)
  {
    forall r | r in rs.credentials
      ensures (r.issuedAt <= DateOf(read) <==> r.issuedAt * 86_400 <= read) && (Current(now, Some(r.expiresAt), 0) <==> now < (r.expiresAt + 1) * 86_400)
    {
      ByDate(r.issuedAt, read);
      ByMidnight(r.expiresAt, now, 0);
    }
    assert forall r | r in rs.credentials && CredentialCounts(r, member, role, read) :: r.expiresAt in CredentialExpiries(rs, member, role, read);
  }

  /** What is loaded and then evaluated is eligible exactly when the rows themselves say so. */
  lemma EligibleExactly(rs: Records, member: Uuid, inputs: Inputs, read: Instant)
    requires member in rs.members && Reduces(rs, member, inputs, read) && inputs.graceDays == 0
    ensures Evaluate(inputs).status == Eligible <==> MayTakePart(rs, member, inputs.now, read)
    ensures Evaluate(inputs).status == Suspended <==>
              exists h | h in rs.holds :: h.member == member && h.liftedAt == None && h.placedAt <= read
  {
    EligibleIff(inputs);
    SourcesOfActive(rs.holds, member, read);
    NeededOnes(rs, member);
    LatestCurrent(inputs.background, CheckExpiries(rs, member, read), inputs.now, 0);
    LatestCurrent(inputs.safeSport, TrainingExpiries(rs, member, read), inputs.now, 0);
    CheckDays(rs, member, inputs.now, read);
    TrainingDays(rs, member, inputs.now, read);
    assert (forall h | h in rs.holds && h.member == member && h.liftedAt == None :: read < h.placedAt) <==> inputs.holds == [];
    assert NeedsCredential(rs, member, Coach) <==> Coach in rs.members[member].roles;
    assert NeedsCredential(rs, member, Referee) <==> Referee in rs.members[member].roles;
    if inputs.roleRequired {
      WeakestCurrent(rs, member, inputs.role, read, inputs.now, 0);
      forall role { RoleDays(rs, member, role, inputs.now, read); }
    } else {
      assert Coach !in Needed(rs, member) && Referee !in Needed(rs, member);
    }
  }

  ghost predicate SameRows(rs: Records, others: Records) {
    && rs.members == others.members
    && (forall r :: r in rs.checks <==> r in others.checks)
    && (forall r :: r in rs.trainings <==> r in others.trainings)
    && (forall r :: r in rs.credentials <==> r in others.credentials)
    && (forall h :: h in rs.holds <==> h in others.holds)
  }

  lemma SameChecks(rs: Records, others: Records, member: Uuid, now: Instant, grace: int)
    requires SameRows(rs, others)
    ensures CheckOnFile(rs, member, now) <==> CheckOnFile(others, member, now)
    ensures HasCheck(rs, member, now, grace) <==> HasCheck(others, member, now, grace)
  {
  }

  lemma SameTrainings(rs: Records, others: Records, member: Uuid, now: Instant, grace: int)
    requires SameRows(rs, others)
    ensures TrainingOnFile(rs, member, now) <==> TrainingOnFile(others, member, now)
    ensures HasTraining(rs, member, now, grace) <==> HasTraining(others, member, now, grace)
  {
  }

  lemma SameCredentials(rs: Records, others: Records, member: Uuid, role: Role, now: Instant, grace: int)
    requires SameRows(rs, others)
    ensures CredentialOnFile(rs, member, role, now) <==> CredentialOnFile(others, member, role, now)
    ensures HasCredential(rs, member, role, now, grace) <==> HasCredential(others, member, role, now, grace)
  {
  }

  lemma SameVerdict(rs: Records, others: Records, member: Uuid, now: Instant, grace: int)
    requires SameRows(rs, others) && member in rs.members
    ensures var v, w := Verdict(rs, member, now, grace), Verdict(others, member, now, grace);
            v.status == w.status && (!v.status.Suspended? ==> v == w)
  {
    assert Held(rs, member, now) <==> Held(others, member, now);
    SameChecks(rs, others, member, now, grace);
    SameTrainings(rs, others, member, now, grace);
    forall role { SameCredentials(rs, others, member, role, now, grace); }
    forall role ensures NeedsCredential(rs, member, role) <==> NeedsCredential(others, member, role) {
    }
  }

  /** The order (and repetition) of rows does not matter. */
  lemma RowOrderDoesNotMatter(rs: Records, others: Records, member: Uuid, inputs: Inputs, inputs': Inputs)
    requires SameRows(rs, others) && member in rs.members
    requires Describes(rs, member, inputs) && Describes(others, member, inputs')
    requires inputs.now == inputs'.now && inputs.graceDays == inputs'.graceDays
    ensures Evaluate(inputs).status == Evaluate(inputs').status
    ensures !Evaluate(inputs).status.Suspended? ==> Evaluate(inputs) == Evaluate(inputs')
  {
    ReductionIsExact(rs, member, inputs);
    ReductionIsExact(others, member, inputs');
    SameVerdict(rs, others, member, inputs.now, inputs.graceDays);
  }

  // ---------------------------------------------------------------- when eligibility lapses

  ghost predicate IsEarliest(o: Option<Day>, values: seq<Option<Day>>) {
    match o
    case None => forall v | v in values :: v == None
    case Some(d) => o in values && forall v | v in values && v.Some? :: d <= v.value
  }

  method Earliest(values: seq<Option<Day>>) returns (result: Option<Day>)
    ensures IsEarliest(result, values)
  {
    result := None;
    for i := 0 to |values|
      invariant IsEarliest(result, values[..i])
    {
      assert values[..i + 1] == values[..i] + [values[i]];
      if values[i].Some? && (result == None || values[i].value < result.value) {
        result := values[i];
      }
    }
    assert values[..|values|] == values;
  }

  function Expiries(inputs: Inputs): seq<Option<Day>> {
    [inputs.background, inputs.safeSport, inputs.role]
  }

  /** For fixed inputs an eligible member stays eligible until the midnight after the reported next
      expiration (plus grace), lapses exactly then, and never becomes eligible again. */
  lemma LapsesExactly(inputs: Inputs, d: Day, n: Instant)
    requires Evaluate(inputs).status == Eligible && IsEarliest(Some(d), Expiries(inputs))
    requires inputs.role.Some? ==> inputs.roleRequired
    ensures Evaluate(inputs.(now := n)).status == if n < (d + 1 + inputs.graceDays) * DAY then Eligible else Lapsed
  {
    EligibleIff(inputs);
    EligibleIff(inputs.(now := n));
    assert Expiries(inputs)[0] == inputs.background && Expiries(inputs)[1] == inputs.safeSport && Expiries(inputs)[2] == inputs.role;
  }

  lemma EligibleIff(inputs: Inputs)
    ensures Evaluate(inputs).status == Eligible <==>
              && inputs.holds == []
              && Current(inputs.now, inputs.safeSport, inputs.graceDays)
              && Current(inputs.now, inputs.background, inputs.graceDays)
              && (inputs.roleRequired ==> Current(inputs.now, inputs.role, inputs.graceDays))
    ensures inputs.holds == [] ==> !Evaluate(inputs).status.Suspended?
  {
    if inputs.holds == [] {
      EvaluateInOrder(inputs);
    }
  }

  /** A member eligible now stays eligible until the midnight after the reported next expiration,
      whatever future-dated records come into effect meanwhile, unless a hold becomes active. */
  lemma StaysEligible(rs: Records, member: Uuid, inputs: Inputs, later: Inputs, d: Day)
    requires member in rs.members && Describes(rs, member, inputs) && Describes(rs, member, later)
    requires inputs.graceDays == later.graceDays == 0 && Evaluate(inputs).status == Eligible
    requires IsEarliest(Some(d), Expiries(inputs)) && inputs.now <= later.now < (d + 1) * DAY
    requires !Held(rs, member, later.now)
    ensures Evaluate(later).status == Eligible
  {
    EligibleIff(inputs);
    EligibleIff(later);
    SourcesOfActive(rs.holds, member, later.now);
    assert DateOf(inputs.now) <= DateOf(later.now);
    assert Expiries(inputs)[0] == inputs.background && Expiries(inputs)[1] == inputs.safeSport && Expiries(inputs)[2] == inputs.role;
    assert CheckExpiries(rs, member, inputs.now) <= CheckExpiries(rs, member, later.now);
    assert TrainingExpiries(rs, member, inputs.now) <= TrainingExpiries(rs, member, later.now);
    if inputs.roleRequired {
      forall role | role in Needed(rs, member) ensures exists x | x in CredentialExpiries(rs, member, role, later.now) :: d <= x {
        var x :| x in CredentialExpiries(rs, member, role, inputs.now) && inputs.role.value <= x;
        assert x in CredentialExpiries(rs, member, role, later.now);
      }
    }
  }

  // ---------------------------------------------------------------- the roster

  datatype ComplianceMember = ComplianceMember(id: Uuid, decision: Decision, nextExpiration: Option<Day>)

  /** The roster's entry for one member: the rule's verdict and the date it next turns on. */
  ghost predicate Reports(rs: Records, now: Instant, row: ComplianceMember) {
    && row.id in rs.members
    && row.decision == Verdict(rs, row.id, now, 0)
    && (row.decision.status == Eligible <==> MayTakePart(rs, row.id, now, now))
    && exists inputs: Inputs :: inputs.now == now && Describes(rs, row.id, inputs) && IsEarliest(row.nextExpiration, Expiries(inputs))
  }

  method ListCompliance(rs: Records, now: Instant) returns (roster: seq<ComplianceMember>)
    ensures forall row | row in roster :: Reports(rs, now, row)
    ensures Ids(roster) == rs.members.Keys && |roster| == |rs.members|
  {
    roster := [];
    var rest := rs.members.Keys;
    while rest != {}
      invariant rest <= rs.members.Keys && |roster| + |rest| == |rs.members|
      invariant forall row | row in roster :: Reports(rs, now, row)
      invariant Ids(roster) == rs.members.Keys - rest
      decreases rest
    {
      var id :| id in rest;
      var row := ComplianceOf(rs, id, now);
      IdsGrow(roster, row);
      roster := roster + [row];
      rest := rest - {id};
    }
  }

  function Ids(roster: seq<ComplianceMember>): set<Uuid> {
    set row | row in roster :: row.id
  }

  lemma IdsGrow(roster: seq<ComplianceMember>, row: ComplianceMember)
    ensures Ids(roster + [row]) == Ids(roster) + {row.id}
  {
    assert forall r :: r in roster + [row] <==> r in roster || r == row;
  }

  method ComplianceOf(rs: Records, id: Uuid, now: Instant) returns (row: ComplianceMember)
    requires id in rs.members
    ensures row.id == id && Reports(rs, now, row)
  {
    var loaded := LoadSafeguardingInputs(rs, id, now, now);
    var inputs := loaded.value;
    ReductionIsExact(rs, id, inputs);
    EligibleExactly(rs, id, inputs, now);
    var next := Earliest(Expiries(inputs));
    row := ComplianceMember(id, Evaluate(inputs), next);
  }
}
