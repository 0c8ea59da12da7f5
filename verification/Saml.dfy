/** SAML login and assertion consumer as atomic steps over the table of stored requests
    (allama/auth/saml.py). */
module Saml {
  import opened Prelude

  const REQUEST_TIMEOUT := 300

  datatype Stored = Stored(relayState: string, expiresAt: int)

  type Table = map<string, Stored>

  /** What the SAML library makes of a response, given the outstanding queries. */
  datatype Verdict = Raised | NoResponse | Response(inResponseTo: Option<string>)

  /** One call of the consumer endpoint. `listing` is the order in which the table is
      read, `clock` the time read for each row, `recheck` the time read later. */
  datatype AcsCall = AcsCall(
    service: string, relayState: string, listing: seq<string>, clock: seq<int>,
    library: map<string, string> -> Verdict, recheck: int)

  datatype Outcome = Forbidden | Failed | Accepted(id: string)

  ghost predicate ReadsTable(c: AcsCall, t: Table) {
    && |c.clock| == |c.listing|
    && (forall i, j :: 0 <= i < j < |c.listing| ==> c.listing[i] != c.listing[j])
    && (forall id :: id in c.listing <==> id in t)
  }

  /** Row `i` of the listing is expired when it is read. */
  ghost predicate ExpiredAt(t: Table, c: AcsCall, i: nat)
    requires ReadsTable(c, t) && i < |c.listing|
  {
    c.clock[i] > t[c.listing[i]].expiresAt
  }

  ghost function ExpiredIds(t: Table, c: AcsCall): set<string>
    requires ReadsTable(c, t)
  {
    set i | 0 <= i < |c.listing| && ExpiredAt(t, c, i) :: c.listing[i]
  }

  ghost function Swept(t: Table, c: AcsCall): Table
    requires ReadsTable(c, t)
  {
    t - ExpiredIds(t, c)
  }

  ghost function Outstanding(t: Table): map<string, string> {
    map id | id in t :: t[id].relayState
  }

  /** An InResponseTo that the code looks up at all. */
  predicate Plausible(id: Option<string>) {
    id.Some? && id.value != "" && id.value != "_" && |id.value| >= 10
  }

  ghost function LoginStep(t: Table, id: string, relayState: string, now: int): Table {
    if id in t then t else t[id := Stored(relayState, now + REQUEST_TIMEOUT)]
  }

  ghost function AcsStep(t: Table, c: AcsCall): (Table, Outcome)
    requires ReadsTable(c, t)
  {
    if c.service != "allama-ui" then (t, Forbidden)
    else
      var swept := Swept(t, c);
      match c.library(Outstanding(swept))
      case Raised => (swept, Failed)
      case NoResponse => (swept, Failed)
      case Response(irt) =>
        if !Plausible(irt) || irt.value !in swept then (swept, Failed)
        else
          var row, rest := swept[irt.value], swept - {irt.value};
          if c.recheck > row.expiresAt || c.relayState != row.relayState then (rest, Failed)
          else (rest, Accepted(irt.value))
  }

  class RequestStore {
    var rows: Table

    constructor ()
      ensures rows == map[]
    {
      rows := map[];
    }

    /** The primary key refuses an id that is still stored; a new one gets a row with the
        relay state that lives for 300 seconds. */
    method Login(id: string, relayState: string, now: int) returns (stored: bool)
      modifies this
      ensures rows == LoginStep(old(rows), id, relayState, now)
      ensures stored <==> id !in old(rows)
      ensures rows.Keys == old(rows).Keys + {id}
      ensures forall other :: other in old(rows) ==> rows[other] == old(rows)[other]
      ensures stored ==> rows[id].relayState == relayState && rows[id].expiresAt == now + 300
    {
      stored := id !in rows;
      if stored {
        rows := rows[id := Stored(relayState, now + REQUEST_TIMEOUT)];
      }
    }

    /** Sorts the stored requests into outstanding queries and expired ids. */
    method ReadRequests(c: AcsCall) returns (outstanding: map<string, string>, expired: seq<string>)
      requires ReadsTable(c, rows)
      ensures outstanding == Outstanding(Swept(rows, c))
      ensures Elements(expired) == ExpiredIds(rows, c)
      ensures IsAlive(rows, c, outstanding)
    {
      outstanding, expired := map[], [];
      for i := 0 to |c.listing|
        invariant Elements(expired) == ExpiredBefore(rows, c, i)
        invariant outstanding == AliveBefore(rows, c, i)
      {
        var id := c.listing[i];
        if c.clock[i] > rows[id].expiresAt {
          expired := expired + [id];
          continue;
        }
        outstanding := outstanding[id := rows[id].relayState];
      }
      ReadAll(rows, c);
      OutstandingIsAlive(rows, c);
    }

    method DeleteAll(ids: seq<string>)
      modifies this
      ensures rows == old(rows) - Elements(ids)
    {
      for i := 0 to |ids|
        invariant rows == old(rows) - Elements(ids[..i])
      {
        rows := rows - {ids[i]};
        assert ids[..i + 1] == ids[..i] + [ids[i]];
      }
      assert ids[..|ids|] == ids;
    }

    method SsoAcs(c: AcsCall) returns (outcome: Outcome)
      requires ReadsTable(c, rows)
      modifies this
      ensures (rows, outcome) == AcsStep(old(rows), c)
    {
      if c.service != "allama-ui" {
        return Forbidden;
      }
      var outstanding, expired := ReadRequests(c);
      DeleteAll(expired);
      match c.library(outstanding)
      case Raised => return Failed;
      case NoResponse => return Failed;
      case Response(irt) =>
        if irt.None? || irt.value == "" {
          return Failed;
        }
        if irt.value == "_" || |irt.value| < 10 {
          return Failed;
        }
        if irt.value !in rows {
          return Failed;
        }
        var row := rows[irt.value];
        if c.recheck > row.expiresAt {
          rows := rows - {irt.value};
          return Failed;
        }
        if c.relayState != row.relayState {
          rows := rows - {irt.value};
          return Failed;
        }
        rows := rows - {irt.value};
        return Accepted(irt.value);
    }
  }

  /** The ids among the first `n` read that were expired. */
  ghost function ExpiredBefore(t: Table, c: AcsCall, n: nat): set<string>
    requires ReadsTable(c, t) && n <= |c.listing|
  {
    if n == 0 then {}
    else ExpiredBefore(t, c, n - 1) + if ExpiredAt(t, c, n - 1) then {c.listing[n - 1]} else {}
  }

  ghost function AliveBefore(t: Table, c: AcsCall, n: nat): map<string, string>
    requires ReadsTable(c, t) && n <= |c.listing|
  {
    if n == 0 then map[]
    else if ExpiredAt(t, c, n - 1) then AliveBefore(t, c, n - 1)
    else AliveBefore(t, c, n - 1)[c.listing[n - 1] := t[c.listing[n - 1]].relayState]
  }

  lemma {:induction false} ReadSoFar(t: Table, c: AcsCall, n: nat)
    requires ReadsTable(c, t) && n <= |c.listing|
    ensures forall id :: id in ExpiredBefore(t, c, n) <==>
              exists k :: 0 <= k < n && c.listing[k] == id && ExpiredAt(t, c, k)
    ensures forall id :: id in AliveBefore(t, c, n) <==>
              exists k :: 0 <= k < n && c.listing[k] == id && !ExpiredAt(t, c, k)
    ensures forall id :: id in AliveBefore(t, c, n) ==> id in t && AliveBefore(t, c, n)[id] == t[id].relayState
  {
    if n > 0 {
      ReadSoFar(t, c, n - 1);
    }
  }

  lemma SweepSplits(t: Table, c: AcsCall)
    requires ReadsTable(c, t)
    ensures forall id :: id in Swept(t, c) <==>
              exists k :: 0 <= k < |c.listing| && c.listing[k] == id && !ExpiredAt(t, c, k)
  {
    forall id
      ensures id in Swept(t, c) <==>
                exists k :: 0 <= k < |c.listing| && c.listing[k] == id && !ExpiredAt(t, c, k)
    {
      if id in t {
        var k :| 0 <= k < |c.listing| && c.listing[k] == id;
        assert id in ExpiredIds(t, c) <==> ExpiredAt(t, c, k);
      }
    }
  }

  lemma ReadAll(t: Table, c: AcsCall)
    requires ReadsTable(c, t)
    ensures ExpiredBefore(t, c, |c.listing|) == ExpiredIds(t, c)
    ensures AliveBefore(t, c, |c.listing|) == Outstanding(Swept(t, c))
  {
    ReadSoFar(t, c, |c.listing|);
    SweepSplits(t, c);
  }

  /** `alive` holds the rows that are not past their expiry when they are read, with their
      relay states. */
  ghost predicate IsAlive(t: Table, c: AcsCall, alive: map<string, string>)
    requires ReadsTable(c, t)
  {
    && (forall i :: 0 <= i < |c.listing| ==> (c.listing[i] in alive <==> c.clock[i] <= t[c.listing[i]].expiresAt))
    && (forall id :: id in alive ==> id in t && alive[id] == t[id].relayState)
  }

  lemma OutstandingIsAlive(t: Table, c: AcsCall)
    requires ReadsTable(c, t)
    ensures IsAlive(t, c, Outstanding(Swept(t, c)))
  {
    SweepSplits(t, c);
  }

  lemma AliveIsOutstanding(t: Table, c: AcsCall, alive: map<string, string>)
    requires ReadsTable(c, t) && IsAlive(t, c, alive)
    ensures alive == Outstanding(Swept(t, c))
  {
    OutstandingIsAlive(t, c);
    var out := Outstanding(Swept(t, c));
    forall id
      ensures id in alive <==> id in out
    {
      if id in t {
        var i :| 0 <= i < |c.listing| && c.listing[i] == id;
      }
    }
  }

  // ------------------------------------------------- one call

  /** A response is accepted exactly when it comes from the UI service, answers a stored
      request that was alive at its reading and still is at the check, and carries its
      relay state. */
  lemma AcceptanceCondition(t: Table, c: AcsCall, alive: map<string, string>, id: string)
    requires ReadsTable(c, t) && IsAlive(t, c, alive)
    ensures AcsStep(t, c).1 == Accepted(id) <==>
              && c.service == "allama-ui" && c.library(alive) == Response(Some(id)) && |id| >= 10
              && id in alive && c.relayState == alive[id] && c.recheck <= t[id].expiresAt
  {
    AliveIsOutstanding(t, c, alive);
    AcceptsWhen(t, c, id);
  }

  /** Another service is forbidden and changes nothing. Past that check the rows that stay
      are exactly the living ones other than the one that the response names, and what is
      not accepted fails. */
  lemma AcsConsumes(t: Table, c: AcsCall, alive: map<string, string>)
    requires ReadsTable(c, t) && IsAlive(t, c, alive)
    ensures var (after, outcome) := AcsStep(t, c);
            && (c.service != "allama-ui" ==> after == t && outcome == Forbidden)
            && (c.service == "allama-ui" ==>
                  && outcome != Forbidden
                  && forall id :: id in after <==>
                       id in alive && !(|id| >= 10 && c.library(alive) == Response(Some(id))))
            && (forall id :: id in after ==> id in t && after[id] == t[id])
  {
    AliveIsOutstanding(t, c, alive);
    StepConsumes(t, c);
    assert alive.Keys == Swept(t, c).Keys;
  }

  /** A response is accepted exactly when it comes from the UI service, answers a request
      that is stored and alive at the sweep and at the check, and carries its relay
      state. */
  lemma AcceptsWhen(t: Table, c: AcsCall, id: string)
    requires ReadsTable(c, t)
    ensures AcsStep(t, c).1 == Accepted(id) <==>
              && c.service == "allama-ui"
              && c.library(Outstanding(Swept(t, c))) == Response(Some(id))
              && |id| >= 10
              && id in t && id !in ExpiredIds(t, c)
              && c.recheck <= t[id].expiresAt
              && c.relayState == t[id].relayState
  {
  }

  /** Past the service check every row expired at its reading is gone, whatever the
      outcome; besides those, only the row that the response names can go, and it goes
      when it is accepted, expired or presented with another relay state. No row is
      added or changed. */
  lemma StepConsumes(t: Table, c: AcsCall)
    requires ReadsTable(c, t)
    ensures var (after, outcome) := AcsStep(t, c);
            && (c.service != "allama-ui" ==> after == t && outcome == Forbidden)
            && (c.service == "allama-ui" ==>
                  && after.Keys !! ExpiredIds(t, c)
                  && var verdict := c.library(Outstanding(Swept(t, c)));
                  forall id :: id in t ==>
                    (id !in after <==>
                       || id in ExpiredIds(t, c)
                       || (|id| >= 10 && verdict == Response(Some(id)))))
            && (forall id :: id in after ==> id in t && after[id] == t[id])
  {
  }

  // ------------------------------------------------- whole runs

  datatype Event = Login(id: string, relayState: string, at: int) | Acs(call: AcsCall)

  ghost predicate Enabled(t: Table, e: Event) {
    e.Acs? ==> ReadsTable(e.call, t)
  }

  ghost function After(t: Table, e: Event): Table
    requires Enabled(t, e)
  {
    match e
    case Login(id, relayState, at) => LoginStep(t, id, relayState, at)
    case Acs(call) => AcsStep(t, call).0
  }

  /** `run` is a sequence of steps from the empty table. */
  ghost predicate IsRun(run: seq<Event>)
    decreases |run|, 0
  {
    run == [] || (IsRun(Before(run)) && Enabled(TableAfter(Before(run)), Last(run)))
  }

  ghost function Before(run: seq<Event>): seq<Event>
    requires run != []
  {
    run[..|run| - 1]
  }

  ghost function Last(run: seq<Event>): Event
    requires run != []
  {
    run[|run| - 1]
  }

  ghost function TableAfter(run: seq<Event>): Table
    requires IsRun(run)
    decreases |run|, 1
  {
    if run == [] then map[] else After(TableAfter(Before(run)), Last(run))
  }

  /** The last step accepts a response to `id`. */
  ghost predicate Accepts(run: seq<Event>, id: string)
    requires IsRun(run)
  {
    run != [] && Last(run).Acs? && AcsStep(TableAfter(Before(run)), Last(run).call).1 == Accepted(id)
  }

  /** The last step stores a request with this id. */
  ghost predicate Stores(run: seq<Event>, id: string)
    requires IsRun(run)
  {
    run != [] && Last(run).Login? && Last(run).id == id && id !in TableAfter(Before(run))
  }

  ghost function AcceptedCount(run: seq<Event>, id: string): nat
    requires IsRun(run)
  {
    if run == [] then 0 else AcceptedCount(Before(run), id) + if Accepts(run, id) then 1 else 0
  }

  ghost function StoredCount(run: seq<Event>, id: string): nat
    requires IsRun(run)
  {
    if run == [] then 0 else StoredCount(Before(run), id) + if Stores(run, id) then 1 else 0
  }

  /** Every stored request is accepted at most once: acceptances and what is still
      pending never exceed the requests stored, id by id, in every run. */
  lemma {:induction false} AcceptedAtMostStored(run: seq<Event>, id: string)
    requires IsRun(run)
    ensures AcceptedCount(run, id) + (if id in TableAfter(run) then 1 else 0) <= StoredCount(run, id)
  {
    if run != [] {
      AcceptedAtMostStored(Before(run), id);
      if Last(run).Acs? {
        StepConsumes(TableAfter(Before(run)), Last(run).call);
        AcceptsWhen(TableAfter(Before(run)), Last(run).call, id);
      }
    }
  }

  ghost predicate FreshIds(run: seq<Event>) {
    forall i, j :: 0 <= i < j < |run| && run[i].Login? && run[j].Login? ==> run[i].id != run[j].id
  }

  lemma {:induction false} FreshStoredOnce(run: seq<Event>, id: string)
    requires IsRun(run) && FreshIds(run)
    ensures StoredCount(run, id) <= 1
    ensures StoredCount(run, id) == 1 ==> exists i :: 0 <= i < |run| && run[i].Login? && run[i].id == id
  {
    if run != [] {
      FreshStoredOnce(Before(run), id);
      if StoredCount(Before(run), id) == 1 {
        var i :| 0 <= i < |Before(run)| && Before(run)[i].Login? && Before(run)[i].id == id;
        assert run[i].Login? && run[i].id == id;
      }
      if Stores(run, id) {
        assert run[|run| - 1].Login? && run[|run| - 1].id == id;
      }
    }
  }

  /** With fresh request ids no id is accepted twice. */
  lemma AcceptedAtMostOnce(run: seq<Event>, id: string)
    requires IsRun(run) && FreshIds(run)
    ensures AcceptedCount(run, id) <= 1
  {
    AcceptedAtMostStored(run, id);
    FreshStoredOnce(run, id);
  }

  /** Login `j` of the run stored the row that `id` holds at its end, and no later step
      removed it. */
  ghost predicate StoredBy(run: seq<Event>, id: string, j: nat)
    requires IsRun(run) && id in TableAfter(run)
  {
    && j < |run| && run[j].Login? && run[j].id == id
    && TableAfter(run)[id] == Stored(run[j].relayState, run[j].at + REQUEST_TIMEOUT)
    && AcceptedSince(run, id, j + 1) == 0
  }

  /** The acceptances of `id` among the steps from `j` on. */
  ghost function AcceptedSince(run: seq<Event>, id: string, j: nat): nat
    requires IsRun(run)
  {
    if |run| <= j then 0 else AcceptedSince(Before(run), id, j) + if Accepts(run, id) then 1 else 0
  }

  lemma {:induction false} StoredRowHasLogin(run: seq<Event>, id: string) returns (j: nat)
    requires IsRun(run) && id in TableAfter(run)
    ensures StoredBy(run, id, j)
  {
    var prefix := Before(run);
    if Stores(run, id) {
      j := |run| - 1;
    } else {
      if Last(run).Acs? {
        StepConsumes(TableAfter(prefix), Last(run).call);
        AcceptsWhen(TableAfter(prefix), Last(run).call, id);
      }
      j := StoredRowHasLogin(prefix, id);
      assert run[j] == prefix[j];
    }
  }

  // ------------------------------------------------- what a login is good for

  /** The step is no response to `id` and reads its row no later than `until`. */
  ghost predicate PassesBy(e: Event, id: string, until: int) {
    e.Acs? ==>
      && (forall alive :: e.call.library(alive) != Response(Some(id)))
      && ReadsBy(e.call, id, until)
  }

  ghost predicate ReadsBy(c: AcsCall, id: string, until: int) {
    forall i :: 0 <= i < |c.listing| && i < |c.clock| && c.listing[i] == id ==> c.clock[i] <= until
  }

  lemma {:induction false} PrefixIsRun(run: seq<Event>, k: nat)
    requires IsRun(run) && k <= |run|
    ensures IsRun(run[..k])
    decreases |run|
  {
    if k == |run| {
      assert run[..k] == run;
    } else {
      PrefixIsRun(Before(run), k);
      assert Before(run)[..k] == run[..k];
    }
  }

  /** A stored request stays, unchanged, as long as it is neither answered nor read after
      its expiry. */
  lemma {:induction false} StoredStays(run: seq<Event>, id: string, j: nat)
    requires IsRun(run) && j < |run| && run[j].Login? && run[j].id == id
    requires IsRun(run[..j]) ==> id !in TableAfter(run[..j])
    requires forall k :: j < k < |run| ==> PassesBy(run[k], id, run[j].at + 300)
    ensures id in TableAfter(run) && TableAfter(run)[id] == Stored(run[j].relayState, run[j].at + 300)
    decreases |run|
  {
    var prefix := Before(run);
    PrefixIsRun(run, j);
    if j == |run| - 1 {
      assert prefix == run[..j];
    } else {
      assert prefix[..j] == run[..j] && prefix[j] == run[j];
      assert forall k :: j < k < |prefix| ==> prefix[k] == run[k];
      StoredStays(prefix, id, j);
      if Last(run).Acs? {
        StepPassesBy(TableAfter(prefix), Last(run).call, id);
      }
    }
  }

  lemma StepPassesBy(t: Table, c: AcsCall, id: string)
    requires ReadsTable(c, t) && id in t && ReadsBy(c, id, t[id].expiresAt)
    requires forall alive :: c.library(alive) != Response(Some(id))
    ensures id in AcsStep(t, c).0 && AcsStep(t, c).0[id] == t[id]
  {
    var alive := Outstanding(Swept(t, c));
    OutstandingIsAlive(t, c);
    AcsConsumes(t, c, alive);
    var i :| 0 <= i < |c.listing| && c.listing[i] == id;
  }

  /** A login whose id was free can be answered: a valid response to it with its relay
      state is accepted if its row is read and checked within 300 seconds, whatever else
      has happened since, as long as no response to it came before and no call read it
      later than that. */
  lemma LoginCanBeAnswered(run: seq<Event>, id: string, j: nat)
    requires IsRun(run) && j < |run| - 1 && run[j].Login? && run[j].id == id && |id| >= 10
    requires IsRun(run[..j]) ==> id !in TableAfter(run[..j])
    requires forall k :: j < k < |run| - 1 ==> PassesBy(run[k], id, run[j].at + 300)
    requires Last(run).Acs?
    requires var c := Last(run).call;
             && c.service == "allama-ui" && c.relayState == run[j].relayState
             && ReadsBy(c, id, run[j].at + 300) && c.recheck <= run[j].at + 300
             && forall alive :: id in alive ==> c.library(alive) == Response(Some(id))
    ensures Accepts(run, id)
  {
    var prefix, c := Before(run), Last(run).call;
    assert prefix[..j] == run[..j] && prefix[j] == run[j];
    assert forall k :: j < k < |prefix| ==> prefix[k] == run[k];
    StoredStays(prefix, id, j);
    var t := TableAfter(prefix);
    OutstandingIsAlive(t, c);
    var i :| 0 <= i < |c.listing| && c.listing[i] == id;
    AcceptanceCondition(t, c, Outstanding(Swept(t, c)), id);
  }

  /** Times never run backwards, within a call or between steps. */
  ghost predicate Monotone(run: seq<Event>) {
    && (forall i :: 0 <= i < |run| ==> Begin(run[i]) <= End(run[i]))
    && (forall i, j :: 0 <= i < j < |run| ==> End(run[i]) <= Begin(run[j]))
  }

  ghost function Begin(e: Event): int {
    match e
    case Login(_, _, at) => at
    case Acs(c) => if c.clock == [] then c.recheck else c.clock[0]
  }

  ghost function End(e: Event): int {
    match e
    case Login(_, _, at) => at
    case Acs(c) => c.recheck
  }

  /** Every accepted response answers an earlier login that was not answered before, with
      the relay state of that login and within its lifetime. */
  lemma AcceptedMatchesLogin(run: seq<Event>, id: string) returns (j: nat)
    requires IsRun(run) && Accepts(run, id)
    ensures j < |run| - 1 && run[j].Login? && run[j].id == id
    ensures Last(run).call.relayState == run[j].relayState
    ensures Last(run).call.recheck <= run[j].at + REQUEST_TIMEOUT
    ensures Monotone(run) ==> run[j].at <= Last(run).call.recheck
    ensures AcceptedSince(Before(run), id, j + 1) == 0
  {
    AcceptsWhen(TableAfter(Before(run)), Last(run).call, id);
    j := StoredRowHasLogin(Before(run), id);
    assert run[j] == Before(run)[j];
    if Monotone(run) {
      assert End(run[j]) <= Begin(run[|run| - 1]) <= End(run[|run| - 1]);
    }
  }
}
