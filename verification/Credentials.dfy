/**
 The learning-center.credentials.v1 contract: what the store loads for one subject, and the response
 built from it. The response must tell a consumer, fact by fact, the same thing its overall
 eligibility field says.
 */
module Credentials {
  import opened Wrappers
  import opened Catalog
  import opened Eligibility

  datatype Record = Record(member: Uuid, subject: string, roles: set<Role>, inputs: Inputs, credentials: seq<Credential>)

  datatype HoldEntry = HoldEntry(source: string, active: bool)

  datatype ExpiringFact = ExpiringFact(expiresAt: Option<Day>, valid: bool)

  datatype CredentialEntry = CredentialEntry(role: Role, credentialType: string, issuedAt: Day, expiresAt: Day, valid: bool)

  datatype Response = Response(member: Uuid, subject: string, roles: set<Role>, asOf: Instant, decision: Decision,
                               holds: seq<HoldEntry>, safeSport: ExpiringFact, background: ExpiringFact,
                               credentials: seq<CredentialEntry>)

  function Fact(inputs: Inputs, expires: Option<Day>): ExpiringFact {
    ExpiringFact(expires, Current(inputs.now, expires, inputs.graceDays))
  }

  /** In effect means issued at or before now, as an instant; the store compares dates instead. */
  function Entry(inputs: Inputs, r: Credential): CredentialEntry {
    var effective := r.issuedAt * DAY <= inputs.now;
    CredentialEntry(r.role, r.credentialType, r.issuedAt, r.expiresAt,
                    effective && Current(inputs.now, Some(r.expiresAt), inputs.graceDays))
  }

  /** The response a record determines. */
  function ResponseOf(record: Record): Response {
    var inputs := record.inputs;
    Response(record.member, record.subject, record.roles, inputs.now, Evaluate(inputs),
             seq(|inputs.holds|, i requires 0 <= i < |inputs.holds| => HoldEntry(inputs.holds[i], true)),
             Fact(inputs, inputs.safeSport), Fact(inputs, inputs.background), Entries(record))
  }

  function Entries(record: Record): seq<CredentialEntry> {
    seq(|record.credentials|, i requires 0 <= i < |record.credentials| => Entry(record.inputs, record.credentials[i]))
  }

  // What a response says, in the fields of the record it is built from.

  ghost predicate FactIs(fact: ExpiringFact, expires: Option<Day>, now: Instant, grace: int) {
    fact.expiresAt == expires && (fact.valid <==> (expires.Some? && now < (expires.value + 1 + grace) * 86_400))
  }

  ghost predicate EntryIs(entry: CredentialEntry, r: Credential, now: Instant, grace: int) {
    && entry.role == r.role && entry.credentialType == r.credentialType
    && entry.issuedAt == r.issuedAt && entry.expiresAt == r.expiresAt
    && (entry.valid <==> r.issuedAt * 86_400 <= now < (r.expiresAt + 1 + grace) * 86_400)
  }

  ghost predicate HoldsAre(entries: seq<HoldEntry>, sources: seq<string>) {
    |entries| == |sources| && forall i | 0 <= i < |entries| :: entries[i].source == sources[i] && entries[i].active
  }

  ghost predicate EntriesAre(entries: seq<CredentialEntry>, rows: seq<Credential>, now: Instant, grace: int) {
    |entries| == |rows| && forall i | 0 <= i < |rows| :: EntryIs(entries[i], rows[i], now, grace)
  }

  lemma FactTells(inputs: Inputs, expires: Option<Day>)
    ensures FactIs(Fact(inputs, expires), expires, inputs.now, inputs.graceDays)
  {
    if expires.Some? {
      ByMidnight(expires.value, inputs.now, inputs.graceDays);
    }
  }

  lemma EntryTells(inputs: Inputs, r: Credential)
    ensures EntryIs(Entry(inputs, r), r, inputs.now, inputs.graceDays)
  {
    ByMidnight(r.expiresAt, inputs.now, inputs.graceDays);
  }

  method Build(record: Record) returns (response: Response)
    ensures response == ResponseOf(record)
    ensures response.member == record.member && response.subject == record.subject && response.roles == record.roles
    ensures response.asOf == record.inputs.now && response.decision == Evaluate(record.inputs)
    ensures HoldsAre(response.holds, record.inputs.holds)
    ensures FactIs(response.safeSport, record.inputs.safeSport, record.inputs.now, record.inputs.graceDays)
    ensures FactIs(response.background, record.inputs.background, record.inputs.now, record.inputs.graceDays)
    ensures EntriesAre(response.credentials, record.credentials, record.inputs.now, record.inputs.graceDays)
  {
    FactTells(record.inputs, record.inputs.safeSport);
    FactTells(record.inputs, record.inputs.background);
    forall r { EntryTells(record.inputs, r); }
    var inputs := record.inputs;
    var holds: seq<HoldEntry> := [];
    for i := 0 to |inputs.holds|
      invariant |holds| == i && forall j | 0 <= j < i :: holds[j] == HoldEntry(inputs.holds[j], true)
    {
      holds := holds + [HoldEntry(inputs.holds[i], true)];
    }
    var credentials: seq<CredentialEntry> := [];
    for i := 0 to |record.credentials|
      invariant |credentials| == i && forall j | 0 <= j < i :: credentials[j] == Entry(inputs, record.credentials[j])
    {
      credentials := credentials + [Entry(inputs, record.credentials[i])];
    }
    response := Response(record.member, record.subject, record.roles, inputs.now, Evaluate(inputs),
                         holds, Fact(inputs, inputs.safeSport), Fact(inputs, inputs.background), credentials);
  }

  // ---------------------------------------------------------------- the member's credential rows

  function RowsOf(rows: seq<Credential>, member: Uuid): seq<Credential> {
    if rows == [] then []
    else (if rows[0].member == member then [rows[0]] else []) + RowsOf(rows[1..], member)
  }

  lemma {:induction false} RowsOfMember(rows: seq<Credential>, member: Uuid)
    ensures forall r :: r in RowsOf(rows, member) <==> r in rows && r.member == member
  {
    if rows == [] {
    } else {
      RowsOfMember(rows[1..], member);
      assert forall r :: r in rows <==> r == rows[0] || r in rows[1..];
    }
  }

  /** Role names in lexical order. */
  function Rank(role: Role): int {
    match role
    case Admin => 0
    case Coach => 1
    case Instructor => 2
    case Learner => 3
    case Referee => 4
  }

  /** `order by role, expires_at desc, issued_at desc`. */
  predicate Precedes(a: Credential, b: Credential) {
    Rank(a.role) < Rank(b.role)
    || (a.role == b.role && (a.expiresAt > b.expiresAt || (a.expiresAt == b.expiresAt && a.issuedAt >= b.issuedAt)))
  }

  ghost predicate InOrder(rows: seq<Credential>) {
    forall i, j | 0 <= i < j < |rows| :: Precedes(rows[i], rows[j])
  }

  function Inserted(rows: seq<Credential>, r: Credential): seq<Credential> {
    if rows == [] then [r]
    else if Precedes(r, rows[0]) then [r] + rows
    else [rows[0]] + Inserted(rows[1..], r)
  }

  lemma {:induction false} InsertedInOrder(rows: seq<Credential>, r: Credential)
    requires InOrder(rows)
    ensures multiset(Inserted(rows, r)) == multiset(rows) + multiset{r} && InOrder(Inserted(rows, r))
  {
    if rows == [] {
    } else if Precedes(r, rows[0]) {
    } else {
      var first, rest := rows[0], Inserted(rows[1..], r);
      InsertedInOrder(rows[1..], r);
      assert rows == [first] + rows[1..];
      forall i | 0 <= i < |rest| ensures Precedes(first, rest[i]) {
        assert rest[i] in multiset(rest);
        assert rest[i] == r || rest[i] in rows[1..];
      }
    }
  }

  function Sorted(rows: seq<Credential>): seq<Credential> {
    if rows == [] then [] else Inserted(Sorted(rows[1..]), rows[0])
  }

  lemma {:induction false} SortedInOrder(rows: seq<Credential>)
    ensures multiset(Sorted(rows)) == multiset(rows) && InOrder(Sorted(rows))
  {
    if rows == [] {
    } else {
      SortedInOrder(rows[1..]);
      InsertedInOrder(Sorted(rows[1..]), rows[0]);
      assert rows == [rows[0]] + rows[1..];
    }
  }

  // ---------------------------------------------------------------- the record of a subject

  /** The record of a subject: its inputs reduced from the member's records, and each of the member's
      credential rows as often as it occurs, in the contract's order. */
  ghost predicate LoadsAt(rs: Records, record: Record, read: Instant) {
    && record.member in rs.members
    && rs.members[record.member] == Member(Some(record.subject), record.roles)
    && Reduces(rs, record.member, record.inputs, read)
    && multiset(record.credentials) == multiset(RowsOf(rs.credentials, record.member)) && InOrder(record.credentials)
  }

  ghost predicate Loads(rs: Records, record: Record) {
    LoadsAt(rs, record, record.inputs.now)
  }

  lemma LoadedRows(rs: Records, record: Record, read: Instant)
    requires LoadsAt(rs, record, read)
    ensures forall r :: r in record.credentials <==> r in rs.credentials && r.member == record.member
  {
    RowsOfMember(rs.credentials, record.member);
    assert forall r :: r in record.credentials <==> r in multiset(record.credentials);
    assert forall r :: r in RowsOf(rs.credentials, record.member) <==> r in multiset(RowsOf(rs.credentials, record.member));
  }

  predicate HasSubject(rs: Records, m: Uuid, subject: string) {
    m in rs.members && rs.members[m].subject == Some(subject)
  }

  method LoadMemberCredentials(rs: Records, subject: string, now: Instant, read: Instant) returns (record: Option<Record>)
    ensures record == None <==> forall m :: !HasSubject(rs, m, subject)
    ensures record.Some? ==> LoadsAt(rs, record.value, read) && record.value.subject == subject
    ensures record.Some? ==> record.value.inputs.now == now && record.value.inputs.graceDays == 0
  {
    if !exists m | m in rs.members :: HasSubject(rs, m, subject) {
      return None;
    }
    var member :| member in rs.members && HasSubject(rs, member, subject);
    var inputs := LoadSafeguardingInputs(rs, member, now, read);
    var result := Sorted(RowsOf(rs.credentials, member));
    SortedInOrder(RowsOf(rs.credentials, member));
    var rows: seq<Credential> := [];
    for i := 0 to |result|
      invariant rows == result[..i]
    {
      rows := rows + [result[i]];
    }
    assert rows == result;
    record := Some(Record(member, subject, rs.members[member].roles, inputs.value, rows));
  }

  /** Every fact a consumer can read from the response holds: no hold is listed, both safeguarding facts
      are valid, and every coach or referee role has a valid credential of that role listed. */
  ghost predicate FactsSayEligible(response: Response) {
    && response.holds == []
    && response.safeSport.valid && response.background.valid
    && forall role | role in response.roles && role in {Coach, Referee} :: ListsValid(response.credentials, role)
  }

  ghost predicate ListsValid(entries: seq<CredentialEntry>, role: Role) {
    exists i | 0 <= i < |entries| :: entries[i].role == role && entries[i].valid
  }

  /** Comparing issue instants is comparing issue dates. */
  lemma IssuedByDate(r: Credential, now: Instant)
    ensures r.issuedAt * DAY <= now <==> r.issuedAt <= DateOf(now)
  {
  }

  /** A valid entry of a role is listed exactly when some expiry in effect now is current. */
  lemma ListedIsInEffect(rs: Records, record: Record, role: Role, read: Instant)
    requires LoadsAt(rs, record, read)
    ensures ListsValid(Entries(record), role) <==>
              exists d | d in CredentialExpiries(rs, record.member, role, record.inputs.now) ::
                Current(record.inputs.now, Some(d), record.inputs.graceDays)
  {
    var inputs := record.inputs;
    var entries := Entries(record);
    LoadedRows(rs, record, read);
    if ListsValid(entries, role) {
      var i :| 0 <= i < |entries| && entries[i].role == role && entries[i].valid;
      var r := record.credentials[i];
      IssuedByDate(r, inputs.now);
      assert r in record.credentials && CredentialCounts(r, record.member, role, inputs.now);
      assert r.expiresAt in CredentialExpiries(rs, record.member, role, inputs.now);
    }
    if d :| d in CredentialExpiries(rs, record.member, role, inputs.now) && Current(inputs.now, Some(d), inputs.graceDays) {
      var r :| r in rs.credentials && CredentialCounts(r, record.member, role, inputs.now) && r.expiresAt == d;
      IssuedByDate(r, inputs.now);
      assert r in record.credentials;
      var i :| 0 <= i < |record.credentials| && record.credentials[i] == r;
      assert entries[i] == Entry(inputs, r);
    }
  }

  lemma ListingAgrees(rs: Records, record: Record, read: Instant)
    requires LoadsAt(rs, record, read) && DateOf(read) == DateOf(record.inputs.now) && Needed(rs, record.member) != {}
    ensures Current(record.inputs.now, record.inputs.role, record.inputs.graceDays) <==>
              forall role | role in Needed(rs, record.member) :: ListsValid(Entries(record), role)
  {
    var inputs := record.inputs;
    WeakestCurrent(rs, record.member, inputs.role, read, inputs.now, inputs.graceDays);
    forall role ensures CredentialExpiries(rs, record.member, role, read) == CredentialExpiries(rs, record.member, role, inputs.now) {
    }
    forall role { ListedIsInEffect(rs, record, role, read); }
  }

  /** The overall status is "eligible" exactly when the listed facts, each judged on its own, say so. */
  ghost predicate Consistent(response: Response) {
    response.decision.status == Eligible <==> FactsSayEligible(response)
  }

  lemma SameDateAgrees(rs: Records, record: Record, read: Instant)
    requires LoadsAt(rs, record, read) && DateOf(read) == DateOf(record.inputs.now)
    ensures Consistent(ResponseOf(record))
  {
    var inputs, response := record.inputs, ResponseOf(record);
    EligibleIff(inputs);
    assert response.holds == [] <==> inputs.holds == [];
    assert forall role :: role in record.roles && role in {Coach, Referee} <==> role in Needed(rs, record.member);
    if inputs.roleRequired {
      ListingAgrees(rs, record, read);
    }
  }

  /** The contract agrees with the decision, whatever the records, when both are made at one instant. */
  lemma ContractAgrees(rs: Records, record: Record)
    requires Loads(rs, record)
    ensures Consistent(ResponseOf(record))
  {
    SameDateAgrees(rs, record, record.inputs.now);
  }

  // ---------------------------------------------------------------- two clocks

  /** A coach whose only credential is issued on the later of two dates. */
  function NewCoach(now: Instant, read: Instant): Records {
    var early, late := if now < read then DateOf(now) else DateOf(read), if now < read then DateOf(read) else DateOf(now);
    Records(map[1 := Member(Some(""), {Coach})], [Check(1, Approved, early, late)], [Training(1, early, late)],
            [Credential(1, Coach, "", late, late)], [])
  }

  function NewCoachRecord(now: Instant, read: Instant): Record {
    var rs := NewCoach(now, read);
    var late := rs.credentials[0].issuedAt;
    Record(1, "", {Coach},
           Inputs(now, Some(late), Some(late), [], 0, true, if DateOf(now) < DateOf(read) then Some(late) else None),
           rs.credentials)
  }

  lemma NewCoachLoads(now: Instant, read: Instant)
    requires DateOf(now) != DateOf(read)
    ensures LoadsAt(NewCoach(now, read), NewCoachRecord(now, read), read)
  {
    var rs, record := NewCoach(now, read), NewCoachRecord(now, read);
    var late := rs.credentials[0].issuedAt;
    assert Needed(rs, 1) == {Coach};
    assert CheckExpiries(rs, 1, read) == {late} by { assert rs.checks[0] in rs.checks && CheckCounts(rs.checks[0], 1, read); }
    assert TrainingExpiries(rs, 1, read) == {late} by { assert rs.trainings[0] in rs.trainings && TrainingCounts(rs.trainings[0], 1, read); }
    if DateOf(now) < DateOf(read) {
      assert rs.credentials[0] in rs.credentials && CredentialCounts(rs.credentials[0], 1, Coach, read);
      assert late in CredentialExpiries(rs, 1, Coach, read);
    } else {
      assert CredentialExpiries(rs, 1, Coach, read) == {};
    }
    assert RowsOf(rs.credentials, 1) == rs.credentials by { assert rs.credentials[1..] == []; }
  }

  lemma NewCoachDisagrees(now: Instant, read: Instant)
    requires DateOf(now) != DateOf(read)
    ensures !Consistent(ResponseOf(NewCoachRecord(now, read)))
  {
    var record := NewCoachRecord(now, read);
    var response := ResponseOf(record);
    EligibleIff(record.inputs);
    IssuedByDate(record.credentials[0], now);
    assert response.credentials[0] == Entry(record.inputs, record.credentials[0]);
    assert ListsValid(response.credentials, Coach) <==> response.credentials[0].valid;
  }

  /** Read at two moments, by the program and then by the database, the contract agrees with the decision
      for all records exactly when both moments fall on one date. */
  lemma TwoReadingsAgreeExactly(now: Instant, read: Instant)
    ensures (forall rs, record | LoadsAt(rs, record, read) && record.inputs.now == now :: Consistent(ResponseOf(record)))
            <==> DateOf(now) == DateOf(read)
  {
    if DateOf(now) == DateOf(read) {
      forall rs, record | LoadsAt(rs, record, read) && record.inputs.now == now ensures Consistent(ResponseOf(record)) {
        SameDateAgrees(rs, record, read);
      }
    } else {
      NewCoachLoads(now, read);
      NewCoachDisagrees(now, read);
    }
  }

  // ---------------------------------------------------------------- what the route says of the rows

  ghost predicate IsLatestTraining(rs: Records, member: Uuid, read: Instant, o: Option<Day>) {
    match o
    case None => forall r | r in rs.trainings && r.member == member :: read < r.completedAt * 86_400
    case Some(d) =>
      && (exists r | r in rs.trainings :: r.member == member && r.completedAt * 86_400 <= read && r.expiresAt == d)
      && (forall r | r in rs.trainings && r.member == member && r.completedAt * 86_400 <= read :: r.expiresAt <= d)
  }

  ghost predicate IsLatestCheck(rs: Records, member: Uuid, read: Instant, o: Option<Day>) {
    match o
    case None => forall r | r in rs.checks && r.member == member && r.status == Approved :: read < r.approvedAt * 86_400
    case Some(d) =>
      && (exists r | r in rs.checks ::
            r.member == member && r.status == Approved && r.approvedAt * 86_400 <= read && r.expiresAt == d)
      && (forall r | r in rs.checks && r.member == member && r.status == Approved && r.approvedAt * 86_400 <= read ::
            r.expiresAt <= d)
  }

  lemma TrainingIsLatest(rs: Records, member: Uuid, read: Instant, o: Option<Day>)
    requires IsLatest(o, TrainingExpiries(rs, member, read))
    ensures IsLatestTraining(rs, member, read, o)
  {
    forall r | r in rs.trainings && r.member == member
      ensures r.completedAt * 86_400 <= read <==> TrainingCounts(r, member, read)
      ensures r.completedAt * 86_400 <= read ==> r.expiresAt in TrainingExpiries(rs, member, read)
    {
      ByDate(r.completedAt, read);
    }
  }

  lemma CheckIsLatest(rs: Records, member: Uuid, read: Instant, o: Option<Day>)
    requires IsLatest(o, CheckExpiries(rs, member, read))
    ensures IsLatestCheck(rs, member, read, o)
  {
    forall r | r in rs.checks && r.member == member && r.status == Approved
      ensures r.approvedAt * 86_400 <= read <==> CheckCounts(r, member, read)
      ensures r.approvedAt * 86_400 <= read ==> r.expiresAt in CheckExpiries(rs, member, read)
    {
      ByDate(r.approvedAt, read);
    }
  }

  function Name(role: Role): string {
    match role
    case Learner => "learner"
    case Instructor => "instructor"
    case Admin => "admin"
    case Coach => "coach"
    case Referee => "referee"
  }

  /** By role name (no two begin alike), then the later expiry first, then the later issue first. */
  ghost predicate EntriesInOrder(entries: seq<CredentialEntry>) {
    forall i, j | 0 <= i < j < |entries| ::
      var a, b := entries[i], entries[j];
      if a.role != b.role then Name(a.role)[0] < Name(b.role)[0]
      else if a.expiresAt != b.expiresAt then a.expiresAt > b.expiresAt
      else a.issuedAt >= b.issuedAt
  }

  /** One entry for each of the member's rows, as often as the row occurs. */
  ghost predicate ListsRows(rs: Records, member: Uuid, entries: seq<CredentialEntry>, now: Instant) {
    exists rows: seq<Credential> ::
      EntriesAre(entries, rows, now, 0)
      && forall r :: multiset(rows)[r] == if r.member == member then multiset(rs.credentials)[r] else 0
  }

  lemma {:induction false} RowsOfOften(rows: seq<Credential>, member: Uuid)
    ensures forall r :: multiset(RowsOf(rows, member))[r] == if r.member == member then multiset(rows)[r] else 0
  {
    if rows == [] {
    } else {
      RowsOfOften(rows[1..], member);
      assert rows == [rows[0]] + rows[1..];
    }
  }

  lemma EntriesFollow(entries: seq<CredentialEntry>, rows: seq<Credential>, now: Instant, grace: int)
    requires EntriesAre(entries, rows, now, grace) && InOrder(rows)
    ensures EntriesInOrder(entries)
  {
    forall i, j | 0 <= i < j < |entries|
      ensures Precedes(rows[i], rows[j]) && EntryIs(entries[i], rows[i], now, grace) && EntryIs(entries[j], rows[j], now, grace)
    {
    }
  }

  /** Everything the route answers, in the fields of the rows. */
  ghost predicate Answers(rs: Records, subject: string, response: Response, now: Instant, read: Instant) {
    && response.member in rs.members && rs.members[response.member] == Member(Some(subject), response.roles)
    && response.subject == subject && response.asOf == now
    && (response.decision.status == Eligible <==> MayTakePart(rs, response.member, now, read))
    && HoldsAre(response.holds, SourcesInOrder(rs.holds, response.member, read))
    && IsLatestTraining(rs, response.member, read, response.safeSport.expiresAt)
    && (response.safeSport.valid <==>
        (response.safeSport.expiresAt.Some? && now < (response.safeSport.expiresAt.value + 1) * 86_400))
    && IsLatestCheck(rs, response.member, read, response.background.expiresAt)
    && (response.background.valid <==>
        (response.background.expiresAt.Some? && now < (response.background.expiresAt.value + 1) * 86_400))
    && ListsRows(rs, response.member, response.credentials, now)
    && EntriesInOrder(response.credentials)
  }

  lemma BuiltAnswers(rs: Records, record: Record, response: Response, read: Instant)
    requires LoadsAt(rs, record, read) && record.inputs.graceDays == 0
    requires response.member == record.member && response.subject == record.subject && response.roles == record.roles
    requires response.asOf == record.inputs.now && response.decision == Evaluate(record.inputs)
    requires HoldsAre(response.holds, record.inputs.holds)
    requires FactIs(response.safeSport, record.inputs.safeSport, record.inputs.now, 0)
    requires FactIs(response.background, record.inputs.background, record.inputs.now, 0)
    requires EntriesAre(response.credentials, record.credentials, record.inputs.now, 0)
    ensures Answers(rs, record.subject, response, record.inputs.now, read)
  {
    EligibleExactly(rs, record.member, record.inputs, read);
    SourcesAreInOrder(rs.holds, record.member, read);
    TrainingIsLatest(rs, record.member, read, record.inputs.safeSport);
    CheckIsLatest(rs, record.member, read, record.inputs.background);
    RowsOfOften(rs.credentials, record.member);
    EntriesFollow(response.credentials, record.credentials, record.inputs.now, 0);
    assert ListsRows(rs, record.member, response.credentials, record.inputs.now);
  }

  /** The route: load the subject's record and build the response; 404 when nobody has the subject. */
  method GetCredentials(rs: Records, subject: string, now: Instant, read: Instant) returns (response: Option<Response>)
    ensures response == None <==> forall m :: !HasSubject(rs, m, subject)
    ensures response.Some? ==> Answers(rs, subject, response.value, now, read)
    ensures response.Some? && read == now ==> response.value.decision == Verdict(rs, response.value.member, now, 0)
    ensures response.Some? && DateOf(read) == DateOf(now) ==> Consistent(response.value)
  {
    var record := LoadMemberCredentials(rs, subject, now, read);
    if record == None {
      return None;
    }
    var built := Build(record.value);
    BuiltAnswers(rs, record.value, built, read);
    if read == now {
      ReductionIsExact(rs, record.value.member, record.value.inputs);
    }
    if DateOf(read) == DateOf(now) {
      SameDateAgrees(rs, record.value, read);
    }
    response := Some(built);
  }
}
