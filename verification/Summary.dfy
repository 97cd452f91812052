/** The daily series of computeSummary (analytics/src/metrics.ts) against its all-time totals. */
module Summary {
  import opened Wrappers
  import opened Metrics

  datatype DidEvent = DidEvent(kind: string, ts: int)

  datatype CredentialEvent = CredentialEvent(kind: string, ts: int)

  /** `valid` is None when the outcome is not known. */
  datatype Verification = Verification(source: string, valid: Option<bool>, ts: int)

  datatype Data = Data(dids: seq<DidEvent>, credentials: seq<CredentialEvent>, verifications: seq<Verification>)

  datatype DidDay = DidDay(t: int, created: nat, total: nat)
  datatype IssuanceDay = IssuanceDay(t: int, issued: nat, revoked: nat)
  datatype VerificationDay = VerificationDay(t: int, onchain: nat, reported: nat)
  datatype OutcomeDay = OutcomeDay(t: int, valid: nat, invalid: nat, unknown: nat, total: nat)

  datatype Totals = Totals(
    dids: nat, credentialsIssued: nat, credentialsRevoked: nat,
    verifications: nat, verificationsOnchain: nat, verificationsReported: nat)

  datatype Outcomes = Outcomes(valid: nat, invalid: nat, unknown: nat, total: nat)

  datatype Report = Report(
    totals: Totals, outcomes: Outcomes, didsDaily: seq<DidDay>, issuanceDaily: seq<IssuanceDay>,
    verificationsDaily: seq<VerificationDay>, outcomesDaily: seq<OutcomeDay>)

  // ---- The lists the series are drawn from ----

  /** The timestamps of the items that are kept, in order. */
  function TimesWhere<T>(items: seq<T>, keep: T -> bool, ts: T -> int): seq<int> {
    if items == [] then []
    else
      var last := items[|items| - 1];
      TimesWhere(items[..|items| - 1], keep, ts) + if keep(last) then [ts(last)] else []
  }

  predicate IsCreated(d: DidEvent) {
    d.kind == "created"
  }

  predicate IsIssued(c: CredentialEvent) {
    c.kind == "issued"
  }

  predicate IsRevoked(c: CredentialEvent) {
    c.kind == "revoked"
  }

  predicate IsAnyCredential(c: CredentialEvent) {
    true
  }

  function DidTime(d: DidEvent): int {
    d.ts
  }

  function CredentialTime(c: CredentialEvent): int {
    c.ts
  }

  function VerificationTime(v: Verification): int {
    v.ts
  }

  function Created(data: Data): seq<int> {
    TimesWhere(data.dids, IsCreated, DidTime)
  }

  function OfCredentials(data: Data, keep: CredentialEvent -> bool): seq<int> {
    TimesWhere(data.credentials, keep, CredentialTime)
  }

  function OfVerifications(data: Data, keep: Verification -> bool): seq<int> {
    TimesWhere(data.verifications, keep, VerificationTime)
  }

  predicate IsOnchain(v: Verification) {
    v.source == "onchain"
  }

  predicate IsReported(v: Verification) {
    v.source == "reported"
  }

  predicate IsValid(v: Verification) {
    v.valid.Some? && v.valid.value
  }

  predicate IsInvalid(v: Verification) {
    v.valid.Some? && !v.valid.value
  }

  predicate IsUnknown(v: Verification) {
    v.valid.None?
  }

  predicate IsAny(v: Verification) {
    true
  }

  predicate AllFrom(times: seq<int>, start: int) {
    forall i :: 0 <= i < |times| ==> times[i] >= start
  }

  lemma {:induction false} KeptFrom<T>(items: seq<T>, keep: T -> bool, ts: T -> int, start: int)
    requires forall i :: 0 <= i < |items| && keep(items[i]) ==> ts(items[i]) >= start
    ensures AllFrom(TimesWhere(items, keep, ts), start)
  {
    if items != [] {
      KeptFrom(items[..|items| - 1], keep, ts, start);
    }
  }

  /** The smallest of some timestamps and a start value. */
  method Earlier<T>(items: seq<T>, keep: T -> bool, ts: T -> int, start: int) returns (earliest: int)
    ensures earliest <= start
    ensures forall i :: 0 <= i < |items| && keep(items[i]) ==> ts(items[i]) >= earliest
    ensures earliest == start || exists i :: 0 <= i < |items| && keep(items[i]) && ts(items[i]) == earliest
  {
    earliest := start;
    for i := 0 to |items|
      invariant earliest <= start
      invariant earliest == start || exists j :: 0 <= j < i && keep(items[j]) && ts(items[j]) == earliest
      invariant forall j :: 0 <= j < i && keep(items[j]) ==> ts(items[j]) >= earliest
    {
      if keep(items[i]) && ts(items[i]) < earliest {
        earliest := ts(items[i]);
      }
    }
  }

  // ---- One series ----

  function DayCount(times: seq<int>, t: int): nat {
    CountIn(times, t, t + DAY)
  }

  /** Consecutive days, from the one that starts at q days on. */
  predicate AreDays(days: seq<int>, q: int) {
    forall i :: 0 <= i < |days| ==> days[i] == (q + i) * DAY
  }

  function At(counts: map<int, nat>, t: int): nat {
    if t in counts then counts[t] else 0
  }

  method PerDay(times: seq<int>, ghost days: seq<int>, ghost q: int) returns (counts: map<int, nat>)
    requires AreDays(days, q)
    ensures forall i :: 0 <= i < |days| ==> At(counts, days[i]) == DayCount(times, days[i])
  {
    counts := CountBy(times, Day);
    forall i | 0 <= i < |days| ensures At(counts, days[i]) == DayCount(times, days[i]) {
      CountDay(times, q + i);
      assert CountKey(times, Day, days[i]) == At(counts, days[i]);
    }
  }

  /** How many timestamps lie before b. */
  function CountBefore(times: seq<int>, b: int): nat {
    if times == [] then 0
    else CountBefore(times[..|times| - 1], b) + if times[|times| - 1] < b then 1 else 0
  }

  lemma {:induction false} BeforeIsIn(times: seq<int>, a: int, b: int)
    requires AllFrom(times, a)
    ensures CountBefore(times, b) == CountIn(times, a, b)
  {
    if times != [] {
      BeforeIsIn(times[..|times| - 1], a, b);
    }
  }

  /** The running total of a day is the number of DIDs created before that day ends. */
  method DidsDaily(created: seq<int>, days: seq<int>, ghost q: int) returns (rows: seq<DidDay>)
    requires AreDays(days, q) && AllFrom(created, q * DAY)
    ensures |rows| == |days|
    ensures forall i :: 0 <= i < |days| ==>
      rows[i] == DidDay(days[i], DayCount(created, days[i]), CountBefore(created, days[i] + DAY))
  {
    var perDay := PerDay(created, days, q);
    var running := 0;
    rows := [];
    BeforeIsIn(created, q * DAY, q * DAY);
    EmptyRange(created, q * DAY);
    for i := 0 to |days|
      invariant |rows| == i && running == CountBefore(created, (q + i) * DAY)
      invariant forall j :: 0 <= j < i ==>
        rows[j] == DidDay(days[j], DayCount(created, days[j]), CountBefore(created, days[j] + DAY))
    {
      var t := days[i];
      CountSplit(created, q * DAY, t, t + DAY);
      BeforeIsIn(created, q * DAY, t);
      BeforeIsIn(created, q * DAY, t + DAY);
      var n := At(perDay, t);
      running := running + n;
      rows := rows + [DidDay(t, n, running)];
    }
  }

  method IssuanceDaily(
      issued: seq<int>, revoked: seq<int>, days: seq<int>, ghost q: int) returns (rows: seq<IssuanceDay>)
    requires AreDays(days, q)
    ensures |rows| == |days|
    ensures forall i :: 0 <= i < |days| ==>
      rows[i] == IssuanceDay(days[i], DayCount(issued, days[i]), DayCount(revoked, days[i]))
  {
    var issuedPerDay := PerDay(issued, days, q);
    var revokedPerDay := PerDay(revoked, days, q);
    rows := seq(|days|, i requires 0 <= i < |days| =>
      IssuanceDay(days[i], At(issuedPerDay, days[i]), At(revokedPerDay, days[i])));
  }

  method VerificationsDaily(onchain: seq<int>, reported: seq<int>, days: seq<int>, ghost q: int)
    returns (rows: seq<VerificationDay>)
    requires AreDays(days, q)
    ensures |rows| == |days|
    ensures forall i :: 0 <= i < |days| ==>
      rows[i] == VerificationDay(days[i], DayCount(onchain, days[i]), DayCount(reported, days[i]))
  {
    var onchainPerDay := PerDay(onchain, days, q);
    var reportedPerDay := PerDay(reported, days, q);
    rows := seq(|days|, i requires 0 <= i < |days| =>
      VerificationDay(days[i], At(onchainPerDay, days[i]), At(reportedPerDay, days[i])));
  }

  /** Each verification has exactly one outcome, on every stretch of time. */
  lemma {:induction false} OutcomesPartition(items: seq<Verification>, a: int, b: int)
    ensures CountIn(TimesWhere(items, IsAny, VerificationTime), a, b)
         == CountIn(TimesWhere(items, IsValid, VerificationTime), a, b)
          + CountIn(TimesWhere(items, IsInvalid, VerificationTime), a, b)
          + CountIn(TimesWhere(items, IsUnknown, VerificationTime), a, b)
  {
    if items != [] {
      var before, last := items[..|items| - 1], items[|items| - 1];
      OutcomesPartition(before, a, b);
      CountAppended(TimesWhere(before, IsAny, VerificationTime), true, last.ts, a, b);
      CountAppended(TimesWhere(before, IsValid, VerificationTime), IsValid(last), last.ts, a, b);
      CountAppended(TimesWhere(before, IsInvalid, VerificationTime), IsInvalid(last), last.ts, a, b);
      CountAppended(TimesWhere(before, IsUnknown, VerificationTime), IsUnknown(last), last.ts, a, b);
    }
  }

  lemma CountAppended(times: seq<int>, kept: bool, t: int, a: int, b: int)
    ensures CountIn(times + (if kept then [t] else []), a, b)
         == CountIn(times, a, b) + if kept && a <= t < b then 1 else 0
  {
    if kept {
      assert (times + [t])[..|times|] == times;
    } else {
      assert times + [] == times;
    }
  }

  method OutcomesDaily(data: Data, days: seq<int>, ghost q: int) returns (rows: seq<OutcomeDay>)
    requires AreDays(days, q)
    ensures |rows| == |days|
    ensures forall i :: 0 <= i < |days| ==>
      rows[i] == OutcomeDay(days[i], DayCount(OfVerifications(data, IsValid), days[i]),
                            DayCount(OfVerifications(data, IsInvalid), days[i]),
                            DayCount(OfVerifications(data, IsUnknown), days[i]),
                            DayCount(OfVerifications(data, IsAny), days[i]))
  {
    var valid := PerDay(OfVerifications(data, IsValid), days, q);
    var invalid := PerDay(OfVerifications(data, IsInvalid), days, q);
    var unknown := PerDay(OfVerifications(data, IsUnknown), days, q);
    rows := seq(|days|, i requires 0 <= i < |days| =>
      var (v, n, u) := (At(valid, days[i]), At(invalid, days[i]), At(unknown, days[i]));
      OutcomeDay(days[i], v, n, u, v + n + u));
    forall i | 0 <= i < |days|
      ensures rows[i].total == DayCount(OfVerifications(data, IsAny), days[i])
    {
      OutcomesPartition(data.verifications, days[i], days[i] + DAY);
    }
  }

  // ---- The whole summary ----

  /** No timestamp lies after today's bucket. */
  predicate NothingLater(times: seq<int>, now: int) {
    forall i :: 0 <= i < |times| ==> times[i] < FloorTo(now, DAY) + DAY
  }

  /** A daily series that starts early enough adds up to everything exactly when nothing is dated after today. */
  lemma SeriesIsConserved<T>(rows: seq<T>, value: T -> int, times: seq<int>, days: seq<int>, q: int, now: int)
    requires AreDays(days, q) && |rows| == |days| == now / DAY - q + 1
    requires AllFrom(times, q * DAY)
    requires forall i :: 0 <= i < |rows| ==> value(rows[i]) == DayCount(times, days[i])
    ensures Sum(rows, value) == |times| <==> NothingLater(times, now)
  {
    SeriesAddsUp(rows, value, times, q * DAY);
    CountAll(times, q * DAY, q * DAY + |rows| * DAY);
    assert q * DAY + |rows| * DAY == FloorTo(now, DAY) + DAY;
  }

  /** The all-time outcome counters. */
  method CountOutcomes(data: Data) returns (outcomes: Outcomes)
    ensures outcomes.valid == |OfVerifications(data, IsValid)|
    ensures outcomes.invalid == |OfVerifications(data, IsInvalid)|
    ensures outcomes.unknown == |OfVerifications(data, IsUnknown)|
    ensures outcomes.total == |data.verifications|
  {
    var valid, invalid, unknown := 0, 0, 0;
    var items := data.verifications;
    for i := 0 to |items|
      invariant valid == |TimesWhere(items[..i], IsValid, VerificationTime)|
      invariant invalid == |TimesWhere(items[..i], IsInvalid, VerificationTime)|
      invariant unknown == |TimesWhere(items[..i], IsUnknown, VerificationTime)|
      invariant valid + invalid + unknown == i
    {
      assert items[..i + 1][..i] == items[..i];
      if items[i].valid == Some(true) {
        valid := valid + 1;
      } else if items[i].valid == Some(false) {
        invalid := invalid + 1;
      } else {
        unknown := unknown + 1;
      }
    }
    assert items[..|items|] == items;
    outcomes := Outcomes(valid, invalid, unknown, valid + invalid + unknown);
  }

  lemma {:induction false} AnyKeepsAll<T>(items: seq<T>, keep: T -> bool, ts: T -> int)
    requires forall i :: 0 <= i < |items| ==> keep(items[i])
    ensures |TimesWhere(items, keep, ts)| == |items|
  {
    if items != [] {
      AnyKeepsAll(items[..|items| - 1], keep, ts);
    }
  }

  /** The start of the first bucket: no created DID, credential event or verification is older. */
  method FirstDay(data: Data, now: int) returns (earliest: int)
    ensures earliest <= now
    ensures forall i :: 0 <= i < |data.dids| && IsCreated(data.dids[i]) ==> data.dids[i].ts >= earliest
    ensures forall i :: 0 <= i < |data.credentials| ==> data.credentials[i].ts >= earliest
    ensures forall i :: 0 <= i < |data.verifications| ==> data.verifications[i].ts >= earliest
    ensures earliest == now
      || (exists i :: 0 <= i < |data.dids| && data.dids[i].kind == "created" && data.dids[i].ts == earliest)
      || (exists i :: 0 <= i < |data.credentials| && data.credentials[i].ts == earliest)
      || (exists i :: 0 <= i < |data.verifications| && data.verifications[i].ts == earliest)
  {
    earliest := Earlier(data.dids, IsCreated, DidTime, now);
    earliest := Earlier(data.credentials, IsAnyCredential, CredentialTime, earliest);
    assert forall i :: 0 <= i < |data.credentials| ==> IsAnyCredential(data.credentials[i]);
    earliest := Earlier(data.verifications, IsAny, VerificationTime, earliest);
    assert forall i :: 0 <= i < |data.verifications| ==> IsAny(data.verifications[i]);
  }

  function IssuedOf(row: IssuanceDay): int { row.issued }
  function RevokedOf(row: IssuanceDay): int { row.revoked }
  function OnchainOf(row: VerificationDay): int { row.onchain }
  function ReportedOf(row: VerificationDay): int { row.reported }
  function ValidOf(row: OutcomeDay): int { row.valid }
  function InvalidOf(row: OutcomeDay): int { row.invalid }
  function UnknownOf(row: OutcomeDay): int { row.unknown }
  function TotalOf(row: OutcomeDay): int { row.total }

  /** The days of a summary at `now` whose first day is not after any timestamp of the data. */
  ghost predicate Covers(data: Data, days: seq<int>, q: int, now: int) {
    && AreDays(days, q) && |days| == now / DAY - q + 1 >= 1
    && (forall i :: 0 <= i < |data.dids| && IsCreated(data.dids[i]) ==> data.dids[i].ts >= q * DAY)
    && (forall i :: 0 <= i < |data.credentials| ==> data.credentials[i].ts >= q * DAY)
    && (forall i :: 0 <= i < |data.verifications| ==> data.verifications[i].ts >= q * DAY)
  }

  /** The day that starts at `first` is the first one needed: no event is older, and it holds one, or `now`. */
  ghost predicate IsFirstDay(data: Data, now: int, first: int, end: int) {
    && (forall i :: 0 <= i < |data.dids| && data.dids[i].kind == "created" ==> first <= data.dids[i].ts)
    && (forall i :: 0 <= i < |data.credentials| ==> first <= data.credentials[i].ts)
    && (forall i :: 0 <= i < |data.verifications| ==> first <= data.verifications[i].ts)
    && (now < end
        || (exists i :: 0 <= i < |data.dids| && data.dids[i].kind == "created" && data.dids[i].ts < end)
        || (exists i :: 0 <= i < |data.credentials| && data.credentials[i].ts < end)
        || (exists i :: 0 <= i < |data.verifications| && data.verifications[i].ts < end))
  }

  method DayBuckets(data: Data, now: int) returns (days: seq<int>, ghost q: int)
    ensures Covers(data, days, q, now)
    ensures days != [] && IsFirstDay(data, now, days[0], days[0] + DAY)
  {
    var earliest := FirstDay(data, now);
    q := earliest / DAY;
    DivisionRoundsDown(earliest, DAY);
    DivisionRoundsDown(now, DAY);
    ProductOrder(now / DAY, q, DAY);
    days := Buckets(earliest, now, DAY);
    assert AreDays(days, q);
  }

  /** Each row counts what happened on its own day, and everything up to its end. */
  predicate DidRows(data: Data, rows: seq<DidDay>) {
    forall i :: 0 <= i < |rows| ==>
      && rows[i].created == DayCount(Created(data), rows[i].t)
      && rows[i].total == CountBefore(Created(data), rows[i].t + DAY)
  }

  /** Each row counts what happened on its own day. */
  predicate IssuanceRows(data: Data, rows: seq<IssuanceDay>) {
    forall i :: 0 <= i < |rows| ==>
      && rows[i].issued == DayCount(OfCredentials(data, IsIssued), rows[i].t)
      && rows[i].revoked == DayCount(OfCredentials(data, IsRevoked), rows[i].t)
  }

  predicate VerificationRows(data: Data, rows: seq<VerificationDay>, outcomes: seq<OutcomeDay>) {
    && (forall i :: 0 <= i < |rows| ==>
      && rows[i].onchain == DayCount(OfVerifications(data, IsOnchain), rows[i].t)
      && rows[i].reported == DayCount(OfVerifications(data, IsReported), rows[i].t))
    && (forall i :: 0 <= i < |outcomes| ==>
      && outcomes[i].valid == DayCount(OfVerifications(data, IsValid), outcomes[i].t)
      && outcomes[i].invalid == DayCount(OfVerifications(data, IsInvalid), outcomes[i].t)
      && outcomes[i].unknown == DayCount(OfVerifications(data, IsUnknown), outcomes[i].t)
      && outcomes[i].total == DayCount(OfVerifications(data, IsAny), outcomes[i].t))
  }

  predicate IssuanceConserved(data: Data, rows: seq<IssuanceDay>, now: int) {
    && (Sum(rows, IssuedOf) == |OfCredentials(data, IsIssued)| <==> NothingLater(OfCredentials(data, IsIssued), now))
    && (Sum(rows, RevokedOf) == |OfCredentials(data, IsRevoked)| <==> NothingLater(OfCredentials(data, IsRevoked), now))
  }

  method Issuance(data: Data, now: int, days: seq<int>, ghost q: int) returns (rows: seq<IssuanceDay>)
    requires Covers(data, days, q, now)
    ensures |rows| == |days| && forall i :: 0 <= i < |days| ==> rows[i].t == days[i]
    ensures IssuanceRows(data, rows) && IssuanceConserved(data, rows, now)
  {
    rows := IssuanceDaily(OfCredentials(data, IsIssued), OfCredentials(data, IsRevoked), days, q);
    KeptFrom(data.credentials, IsIssued, CredentialTime, q * DAY);
    KeptFrom(data.credentials, IsRevoked, CredentialTime, q * DAY);
    SeriesIsConserved(rows, IssuedOf, OfCredentials(data, IsIssued), days, q, now);
    SeriesIsConserved(rows, RevokedOf, OfCredentials(data, IsRevoked), days, q, now);
  }

  predicate Conserved<T>(data: Data, rows: seq<T>, value: T -> int, keep: Verification -> bool, now: int) {
    Sum(rows, value) == |OfVerifications(data, keep)| <==> NothingLater(OfVerifications(data, keep), now)
  }

  lemma VerificationSeries<T>(
    data: Data, rows: seq<T>, value: T -> int, keep: Verification -> bool, days: seq<int>, q: int, now: int)
    requires Covers(data, days, q, now) && |rows| == |days|
    requires forall i :: 0 <= i < |rows| ==> value(rows[i]) == DayCount(OfVerifications(data, keep), days[i])
    ensures Conserved(data, rows, value, keep, now)
  {
    KeptFrom(data.verifications, keep, VerificationTime, q * DAY);
    SeriesIsConserved(rows, value, OfVerifications(data, keep), days, q, now);
  }

  method Verifications(data: Data, now: int, days: seq<int>, ghost q: int)
    returns (rows: seq<VerificationDay>, outcomes: seq<OutcomeDay>)
    requires Covers(data, days, q, now)
    ensures |rows| == |outcomes| == |days|
    ensures forall i :: 0 <= i < |days| ==> rows[i].t == outcomes[i].t == days[i]
    ensures VerificationRows(data, rows, outcomes)
    ensures Conserved(data, rows, OnchainOf, IsOnchain, now) && Conserved(data, rows, ReportedOf, IsReported, now)
    ensures Conserved(data, outcomes, ValidOf, IsValid, now) && Conserved(data, outcomes, InvalidOf, IsInvalid, now)
    ensures Conserved(data, outcomes, UnknownOf, IsUnknown, now) && Conserved(data, outcomes, TotalOf, IsAny, now)
  {
    rows := VerificationsDaily(OfVerifications(data, IsOnchain), OfVerifications(data, IsReported), days, q);
    VerificationSeries(data, rows, OnchainOf, IsOnchain, days, q, now);
    VerificationSeries(data, rows, ReportedOf, IsReported, days, q, now);
    outcomes := OutcomesDaily(data, days, q);
    VerificationSeries(data, outcomes, ValidOf, IsValid, days, q, now);
    VerificationSeries(data, outcomes, InvalidOf, IsInvalid, days, q, now);
    VerificationSeries(data, outcomes, UnknownOf, IsUnknown, days, q, now);
    VerificationSeries(data, outcomes, TotalOf, IsAny, days, q, now);
  }

  lemma {:induction false} BeforeAll(times: seq<int>, b: int)
    ensures CountBefore(times, b) <= |times|
    ensures CountBefore(times, b) == |times| <==> forall i :: 0 <= i < |times| ==> times[i] < b
  {
    if times != [] {
      BeforeAll(times[..|times| - 1], b);
      assert forall i :: 0 <= i < |times| - 1 ==> times[..|times| - 1][i] == times[i];
    }
  }

  method Dids(data: Data, now: int, days: seq<int>, ghost q: int) returns (rows: seq<DidDay>)
    requires Covers(data, days, q, now)
    ensures |rows| == |days| && forall i :: 0 <= i < |days| ==> rows[i].t == days[i]
    ensures rows != [] && rows[|rows| - 1].t == FloorTo(now, DAY)
    ensures DidRows(data, rows)
    ensures rows[|rows| - 1].total == |Created(data)| <==> NothingLater(Created(data), now)
  {
    KeptFrom(data.dids, IsCreated, DidTime, q * DAY);
    rows := DidsDaily(Created(data), days, q);
    BeforeAll(Created(data), FloorTo(now, DAY) + DAY);
  }

  /** All series have the days of the first one, each right after the one before. */
  predicate SameDays(report: Report) {
    && |report.didsDaily| == |report.issuanceDaily| == |report.verificationsDaily| == |report.outcomesDaily|
    && (forall i :: 0 <= i < |report.didsDaily| ==> report.issuanceDaily[i].t == report.didsDaily[i].t)
    && (forall i :: 0 <= i < |report.didsDaily| ==> report.verificationsDaily[i].t == report.didsDaily[i].t)
    && (forall i :: 0 <= i < |report.didsDaily| ==> report.outcomesDaily[i].t == report.didsDaily[i].t)
    && (forall i :: 0 <= i < |report.didsDaily| ==> report.didsDaily[i].t == report.didsDaily[0].t + i * DAY)
  }

  /** The all-time numbers of the report. */
  predicate CountsAll(data: Data, report: Report) {
    && report.totals.dids == |Created(data)|
    && report.totals.credentialsIssued == |OfCredentials(data, IsIssued)|
    && report.totals.credentialsRevoked == |OfCredentials(data, IsRevoked)|
    && report.totals.verifications == report.outcomes.total == |data.verifications|
    && report.totals.verificationsOnchain == |OfVerifications(data, IsOnchain)|
    && report.totals.verificationsReported == |OfVerifications(data, IsReported)|
    && report.outcomes.valid == |OfVerifications(data, IsValid)|
    && report.outcomes.invalid == |OfVerifications(data, IsInvalid)|
    && report.outcomes.unknown == |OfVerifications(data, IsUnknown)|
  }

  /** Each series but the first adds up to its all-time total exactly when nothing of it is dated after today. */
  predicate SeriesAgree(data: Data, report: Report, now: int) {
    && (Sum(report.issuanceDaily, IssuedOf) == report.totals.credentialsIssued
        <==> NothingLater(OfCredentials(data, IsIssued), now))
    && (Sum(report.issuanceDaily, RevokedOf) == report.totals.credentialsRevoked
        <==> NothingLater(OfCredentials(data, IsRevoked), now))
    && (Sum(report.verificationsDaily, OnchainOf) == report.totals.verificationsOnchain
        <==> NothingLater(OfVerifications(data, IsOnchain), now))
    && (Sum(report.verificationsDaily, ReportedOf) == report.totals.verificationsReported
        <==> NothingLater(OfVerifications(data, IsReported), now))
    && (Sum(report.outcomesDaily, ValidOf) == report.outcomes.valid
        <==> NothingLater(OfVerifications(data, IsValid), now))
    && (Sum(report.outcomesDaily, InvalidOf) == report.outcomes.invalid
        <==> NothingLater(OfVerifications(data, IsInvalid), now))
    && (Sum(report.outcomesDaily, UnknownOf) == report.outcomes.unknown
        <==> NothingLater(OfVerifications(data, IsUnknown), now))
    && (Sum(report.outcomesDaily, TotalOf) == report.totals.verifications
        <==> NothingLater(OfVerifications(data, IsAny), now))
  }

  lemma ReportAgrees(data: Data, report: Report, now: int)
    requires CountsAll(data, report) && IssuanceConserved(data, report.issuanceDaily, now)
    requires Conserved(data, report.verificationsDaily, OnchainOf, IsOnchain, now)
    requires Conserved(data, report.verificationsDaily, ReportedOf, IsReported, now)
    requires Conserved(data, report.outcomesDaily, ValidOf, IsValid, now)
    requires Conserved(data, report.outcomesDaily, InvalidOf, IsInvalid, now)
    requires Conserved(data, report.outcomesDaily, UnknownOf, IsUnknown, now)
    requires Conserved(data, report.outcomesDaily, TotalOf, IsAny, now)
    ensures SeriesAgree(data, report, now)
  {
    AnyKeepsAll(data.verifications, IsAny, VerificationTime);
  }

  method CountTotals(data: Data) returns (totals: Totals)
    ensures totals.dids == |Created(data)|
    ensures totals.credentialsIssued == |OfCredentials(data, IsIssued)|
    ensures totals.credentialsRevoked == |OfCredentials(data, IsRevoked)|
    ensures totals.verifications == |data.verifications|
    ensures totals.verificationsOnchain == |OfVerifications(data, IsOnchain)|
    ensures totals.verificationsReported == |OfVerifications(data, IsReported)|
  {
    totals := Totals(
      |Created(data)|, |OfCredentials(data, IsIssued)|, |OfCredentials(data, IsRevoked)|, |data.verifications|,
      |OfVerifications(data, IsOnchain)|, |OfVerifications(data, IsReported)|);
  }

  // ---- The numbers, event by event ----

  /** The places of the DID events of a kind, from time a up to b. */
  function DidPlaces(data: Data, kind: string, a: int, b: int): set<int> {
    set i | 0 <= i < |data.dids| && data.dids[i].kind == kind && a <= data.dids[i].ts < b
  }

  function CredentialPlaces(data: Data, kind: string, a: int, b: int): set<int> {
    set i | 0 <= i < |data.credentials| && data.credentials[i].kind == kind && a <= data.credentials[i].ts < b
  }

  function SourcePlaces(data: Data, source: string, a: int, b: int): set<int> {
    set i | 0 <= i < |data.verifications| && data.verifications[i].source == source
              && a <= data.verifications[i].ts < b
  }

  function OutcomePlaces(data: Data, valid: Option<bool>, a: int, b: int): set<int> {
    set i | 0 <= i < |data.verifications| && data.verifications[i].valid == valid
              && a <= data.verifications[i].ts < b
  }

  /** Counting kept timestamps is counting the places they come from. */
  lemma {:induction false} CountIsPlaces<T>(
    items: seq<T>, keep: T -> bool, ts: T -> int, a: int, b: int, places: set<int>)
    requires forall i :: i in places <==> 0 <= i < |items| && keep(items[i]) && a <= ts(items[i]) < b
    ensures CountIn(TimesWhere(items, keep, ts), a, b) == |places|
  {
    if items == [] {
      assert forall i :: i !in places;
    } else {
      var n := |items| - 1;
      var last := items[n];
      CountIsPlaces(items[..n], keep, ts, a, b, places - {n});
      CountAppended(TimesWhere(items[..n], keep, ts), keep(last), ts(last), a, b);
    }
  }

  /** The places of all created DIDs before time b. */
  function CreatedBefore(data: Data, b: int): set<int> {
    set i | 0 <= i < |data.dids| && data.dids[i].kind == "created" && data.dids[i].ts < b
  }

  lemma {:induction false} CountBeforeIsPlaces<T>(
    items: seq<T>, keep: T -> bool, ts: T -> int, b: int, places: set<int>)
    requires forall i :: i in places <==> 0 <= i < |items| && keep(items[i]) && ts(items[i]) < b
    ensures CountBefore(TimesWhere(items, keep, ts), b) == |places|
  {
    if items == [] {
      assert forall i :: i !in places;
    } else {
      var n := |items| - 1;
      var times := TimesWhere(items[..n], keep, ts);
      CountBeforeIsPlaces(items[..n], keep, ts, b, places - {n});
      assert (times + [ts(items[n])])[..|times|] == times;
      assert times + [] == times;
    }
  }

  /** Every event lies in a range that begins early enough and ends late enough. */
  predicate Holds(data: Data, a: int, b: int) {
    && (forall i :: 0 <= i < |data.dids| ==> a <= data.dids[i].ts < b)
    && (forall i :: 0 <= i < |data.credentials| ==> a <= data.credentials[i].ts < b)
    && (forall i :: 0 <= i < |data.verifications| ==> a <= data.verifications[i].ts < b)
  }

  /** The totals are the numbers of events of each kind, whatever range holds them all. */
  predicate TotalsCount(data: Data, totals: Totals, outcomes: Outcomes, a: int, b: int) {
    && totals.dids == |DidPlaces(data, "created", a, b)|
    && totals.credentialsIssued == |CredentialPlaces(data, "issued", a, b)|
    && totals.credentialsRevoked == |CredentialPlaces(data, "revoked", a, b)|
    && totals.verifications == outcomes.total == |data.verifications|
    && totals.verificationsOnchain == |SourcePlaces(data, "onchain", a, b)|
    && totals.verificationsReported == |SourcePlaces(data, "reported", a, b)|
    && outcomes.valid == |OutcomePlaces(data, Some(true), a, b)|
    && outcomes.invalid == |OutcomePlaces(data, Some(false), a, b)|
    && outcomes.unknown == |OutcomePlaces(data, None, a, b)|
  }

  const MS_PER_DAY := 86400000

  predicate DidRowCounts(data: Data, row: DidDay, end: int) {
    && row.created == |DidPlaces(data, "created", row.t, end)|
    && row.total == |CreatedBefore(data, end)|
  }

  predicate IssuanceRowCounts(data: Data, row: IssuanceDay, end: int) {
    && row.issued == |CredentialPlaces(data, "issued", row.t, end)|
    && row.revoked == |CredentialPlaces(data, "revoked", row.t, end)|
  }

  predicate SourceRowCounts(data: Data, row: VerificationDay, end: int) {
    && row.onchain == |SourcePlaces(data, "onchain", row.t, end)|
    && row.reported == |SourcePlaces(data, "reported", row.t, end)|
  }

  predicate OutcomeRowCounts(data: Data, row: OutcomeDay, end: int) {
    && row.valid == |OutcomePlaces(data, Some(true), row.t, end)|
    && row.invalid == |OutcomePlaces(data, Some(false), row.t, end)|
    && row.unknown == |OutcomePlaces(data, None, row.t, end)|
    && row.total == row.valid + row.invalid + row.unknown
  }

  /** Row i of every series counts the events of its own day, and of all days so far where it is a running total. */
  predicate RowsCount(data: Data, report: Report, i: nat)
    requires SameDays(report) && i < |report.didsDaily|
  {
    var end := report.didsDaily[i].t + MS_PER_DAY;
    && DidRowCounts(data, report.didsDaily[i], end)
    && IssuanceRowCounts(data, report.issuanceDaily[i], end)
    && SourceRowCounts(data, report.verificationsDaily[i], end)
    && OutcomeRowCounts(data, report.outcomesDaily[i], end)
  }

  lemma DidsCounted(data: Data, a: int, b: int)
    ensures CountIn(Created(data), a, b) == |DidPlaces(data, "created", a, b)|
  {
    CountIsPlaces(data.dids, IsCreated, DidTime, a, b, DidPlaces(data, "created", a, b));
  }

  lemma DidsCountedBefore(data: Data, b: int)
    ensures CountBefore(Created(data), b) == |CreatedBefore(data, b)|
  {
    CountBeforeIsPlaces(data.dids, IsCreated, DidTime, b, CreatedBefore(data, b));
  }

  lemma CredentialsCounted(data: Data, a: int, b: int)
    ensures CountIn(OfCredentials(data, IsIssued), a, b) == |CredentialPlaces(data, "issued", a, b)|
    ensures CountIn(OfCredentials(data, IsRevoked), a, b) == |CredentialPlaces(data, "revoked", a, b)|
  {
    CountIsPlaces(data.credentials, IsIssued, CredentialTime, a, b, CredentialPlaces(data, "issued", a, b));
    CountIsPlaces(data.credentials, IsRevoked, CredentialTime, a, b, CredentialPlaces(data, "revoked", a, b));
  }

  lemma SourcesCounted(data: Data, a: int, b: int)
    ensures CountIn(OfVerifications(data, IsOnchain), a, b) == |SourcePlaces(data, "onchain", a, b)|
    ensures CountIn(OfVerifications(data, IsReported), a, b) == |SourcePlaces(data, "reported", a, b)|
  {
    CountIsPlaces(data.verifications, IsOnchain, VerificationTime, a, b, SourcePlaces(data, "onchain", a, b));
    CountIsPlaces(data.verifications, IsReported, VerificationTime, a, b, SourcePlaces(data, "reported", a, b));
  }

  lemma OutcomesCounted(data: Data, a: int, b: int)
    ensures CountIn(OfVerifications(data, IsValid), a, b) == |OutcomePlaces(data, Some(true), a, b)|
    ensures CountIn(OfVerifications(data, IsInvalid), a, b) == |OutcomePlaces(data, Some(false), a, b)|
    ensures CountIn(OfVerifications(data, IsUnknown), a, b) == |OutcomePlaces(data, None, a, b)|
  {
    CountIsPlaces(data.verifications, IsValid, VerificationTime, a, b, OutcomePlaces(data, Some(true), a, b));
    CountIsPlaces(data.verifications, IsInvalid, VerificationTime, a, b, OutcomePlaces(data, Some(false), a, b));
    CountIsPlaces(data.verifications, IsUnknown, VerificationTime, a, b, OutcomePlaces(data, None, a, b));
  }

  /** The kept timestamps are those of the items, so they lie where the items do. */
  lemma {:induction false} KeptWithin<T>(items: seq<T>, keep: T -> bool, ts: T -> int, a: int, b: int)
    requires forall i :: 0 <= i < |items| ==> a <= ts(items[i]) < b
    ensures CountIn(TimesWhere(items, keep, ts), a, b) == |TimesWhere(items, keep, ts)|
  {
    if items != [] {
      var n := |items| - 1;
      KeptWithin(items[..n], keep, ts, a, b);
      CountAppended(TimesWhere(items[..n], keep, ts), keep(items[n]), ts(items[n]), a, b);
    }
  }

  lemma DidTotals(data: Data, a: int, b: int)
    requires Holds(data, a, b)
    ensures |Created(data)| == |DidPlaces(data, "created", a, b)|
  {
    DidsCounted(data, a, b);
    KeptWithin(data.dids, IsCreated, DidTime, a, b);
  }

  lemma CredentialTotals(data: Data, a: int, b: int)
    requires Holds(data, a, b)
    ensures |OfCredentials(data, IsIssued)| == |CredentialPlaces(data, "issued", a, b)|
    ensures |OfCredentials(data, IsRevoked)| == |CredentialPlaces(data, "revoked", a, b)|
  {
    CredentialsCounted(data, a, b);
    KeptWithin(data.credentials, IsIssued, CredentialTime, a, b);
    KeptWithin(data.credentials, IsRevoked, CredentialTime, a, b);
  }

  lemma SourceTotals(data: Data, a: int, b: int)
    requires Holds(data, a, b)
    ensures |OfVerifications(data, IsOnchain)| == |SourcePlaces(data, "onchain", a, b)|
    ensures |OfVerifications(data, IsReported)| == |SourcePlaces(data, "reported", a, b)|
  {
    SourcesCounted(data, a, b);
    KeptWithin(data.verifications, IsOnchain, VerificationTime, a, b);
    KeptWithin(data.verifications, IsReported, VerificationTime, a, b);
  }

  lemma OutcomeTotals(data: Data, a: int, b: int)
    requires Holds(data, a, b)
    ensures |OfVerifications(data, IsValid)| == |OutcomePlaces(data, Some(true), a, b)|
    ensures |OfVerifications(data, IsInvalid)| == |OutcomePlaces(data, Some(false), a, b)|
    ensures |OfVerifications(data, IsUnknown)| == |OutcomePlaces(data, None, a, b)|
  {
    OutcomesCounted(data, a, b);
    KeptWithin(data.verifications, IsValid, VerificationTime, a, b);
    KeptWithin(data.verifications, IsInvalid, VerificationTime, a, b);
    KeptWithin(data.verifications, IsUnknown, VerificationTime, a, b);
  }

  lemma TotalsAreCounts(data: Data, report: Report, a: int, b: int)
    requires CountsAll(data, report) && Holds(data, a, b)
    ensures TotalsCount(data, report.totals, report.outcomes, a, b)
  {
    DidTotals(data, a, b);
    CredentialTotals(data, a, b);
    SourceTotals(data, a, b);
    OutcomeTotals(data, a, b);
  }

  /** Every total and every row is a number of events; the days follow each other up to that of `now`. */
  ghost predicate IsSummary(data: Data, report: Report, now: int) {
    && SameDays(report) && report.didsDaily != []
    && IsFirstDay(data, now, report.didsDaily[0].t, report.didsDaily[0].t + MS_PER_DAY)
    && (forall a, b :: Holds(data, a, b) ==> TotalsCount(data, report.totals, report.outcomes, a, b))
    && (forall i :: 0 <= i < |report.didsDaily| ==> RowsCount(data, report, i))
    && (forall i :: 0 <= i < |report.didsDaily| - 1 ==>
        report.didsDaily[i + 1].t == report.didsDaily[i].t + MS_PER_DAY)
    && var last := report.didsDaily[|report.didsDaily| - 1].t;
      last % MS_PER_DAY == 0 && last <= now < last + MS_PER_DAY
  }

  /** What the summary states through its own counts, row by row. */
  predicate RowsAgree(data: Data, report: Report) {
    && SameDays(report)
    && DidRows(data, report.didsDaily)
    && IssuanceRows(data, report.issuanceDaily)
    && VerificationRows(data, report.verificationsDaily, report.outcomesDaily)
  }

  lemma OutcomeRowIsCount(data: Data, row: OutcomeDay, end: int)
    requires end == row.t + MS_PER_DAY && row.total == DayCount(OfVerifications(data, IsAny), row.t)
    requires row.valid == DayCount(OfVerifications(data, IsValid), row.t)
    requires row.invalid == DayCount(OfVerifications(data, IsInvalid), row.t)
    requires row.unknown == DayCount(OfVerifications(data, IsUnknown), row.t)
    ensures OutcomeRowCounts(data, row, end)
  {
    OutcomesCounted(data, row.t, end);
    OutcomesPartition(data.verifications, row.t, end);
  }

  lemma RowCounts(data: Data, report: Report, i: nat)
    requires RowsAgree(data, report) && i < |report.didsDaily|
    ensures RowsCount(data, report, i)
  {
    var t := report.didsDaily[i].t;
    var end := t + MS_PER_DAY;
    DidsCounted(data, t, end);
    DidsCountedBefore(data, end);
    CredentialsCounted(data, t, end);
    SourcesCounted(data, t, end);
    OutcomeRowIsCount(data, report.outcomesDaily[i], end);
  }

  lemma DayStarts(now: int)
    ensures FloorTo(now, DAY) % MS_PER_DAY == 0 && FloorTo(now, DAY) <= now < FloorTo(now, DAY) + MS_PER_DAY
  {
    assert FloorTo(now, DAY) == now / MS_PER_DAY * MS_PER_DAY;
  }

  lemma NextDay(report: Report, i: nat)
    requires SameDays(report) && i + 1 < |report.didsDaily|
    ensures report.didsDaily[i + 1].t == report.didsDaily[i].t + MS_PER_DAY
  {
    assert (i + 1) * DAY == i * DAY + DAY;
  }

  lemma ReportIsSummary(data: Data, report: Report, now: int, first: int, end: int)
    requires CountsAll(data, report) && RowsAgree(data, report)
    requires report.didsDaily != [] && report.didsDaily[|report.didsDaily| - 1].t == FloorTo(now, DAY)
    requires first == report.didsDaily[0].t && end == first + DAY && IsFirstDay(data, now, first, end)
    ensures IsSummary(data, report, now)
  {
    forall a, b | Holds(data, a, b) ensures TotalsCount(data, report.totals, report.outcomes, a, b) {
      TotalsAreCounts(data, report, a, b);
    }
    forall i | 0 <= i < |report.didsDaily| ensures RowsCount(data, report, i) {
      RowCounts(data, report, i);
    }
    forall i | 0 <= i < |report.didsDaily| - 1
      ensures report.didsDaily[i + 1].t == report.didsDaily[i].t + MS_PER_DAY
    {
      NextDay(report, i);
    }
    DayStarts(now);
  }

  /**
   The totals count everything; the series share their days; each row counts its own day; the running total of
   a day counts the DIDs created before that day ends, and the last one is the total, and every other series
   adds up to its total, exactly when none of its timestamps lies after today.
   */
  method ComputeSummary(data: Data, now: int) returns (report: Report)
    ensures IsSummary(data, report, now)
    ensures CountsAll(data, report) && SameDays(report)
    ensures report.didsDaily != [] && report.didsDaily[|report.didsDaily| - 1].t == FloorTo(now, DAY)
    ensures DidRows(data, report.didsDaily)
    ensures IssuanceRows(data, report.issuanceDaily)
    ensures VerificationRows(data, report.verificationsDaily, report.outcomesDaily)
    ensures report.didsDaily[|report.didsDaily| - 1].total == report.totals.dids <==> NothingLater(Created(data), now)
    ensures SeriesAgree(data, report, now)
  {
    var days, q := DayBuckets(data, now);
    var didsDaily := Dids(data, now, days, q);
    var issuanceDaily := Issuance(data, now, days, q);
    var verificationsDaily, outcomesDaily := Verifications(data, now, days, q);
    var outcomes := CountOutcomes(data);
    var totals := CountTotals(data);
    report := Report(totals, outcomes, didsDaily, issuanceDaily, verificationsDaily, outcomesDaily);
    ReportAgrees(data, report, now);
    ReportIsSummary(data, report, now, days[0], days[0] + DAY);
  }
}
