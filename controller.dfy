/**
 * The reconciliation controller (`TCPController`): once per tick it polls
 * the management interface, and either counts a failure (alerting once when
 * the count reaches the threshold) or diffs the fresh roster against the
 * stored one, reporting disconnected and newly connected clients, and
 * stores the fresh roster.
 *
 * The notification sink is an append-only ghost log of events; the order in
 * which a tick visits the names of a roster is a nondeterministic choice,
 * standing for the unspecified iteration order of a `HashMap`.
 */
module Controller {
  import opened Wrappers
  import opened Text
  import opened Status
  import opened Response

  /** Consecutive failed polls after which the alert is sent. */
  const CriticalFailureCount: nat := 3

  /** The alert text, built with the threshold as the Rust `format!` does. */
  const AlertMessage: string :=
    DecimalString(CriticalFailureCount)
    + " consecutive failed calls to openvpn server, please check the error logs"

  /** A call into the notification sink. */
  datatype Event =
    | Connected(client: Client)
    | Disconnected(client: Client)
    | Alert(message: string)

  /** A TCP port, as the configuration's `u16`. */
  type Port = p: int | 0 <= p < 0x1_0000

  // ---------------------------------------------------------------------------
  // Failure counting
  // ---------------------------------------------------------------------------

  /** `failed_calls` after one poll: reset by a success, one more after a failure. */
  function NextFailedCalls(failedCalls: nat, succeeded: bool): nat {
    if succeeded then 0 else failedCalls + 1
  }

  /** What a failed poll sends, given the count it raised `failed_calls` to. */
  function FailureAlerts(failedCalls: nat): seq<Event> {
    if failedCalls == CriticalFailureCount then [Alert(AlertMessage)] else []
  }

  /** The events of `k` consecutive failed polls that start from the count `start`. */
  function StreakAlerts(start: nat, k: nat): seq<Event> {
    if k == 0 then [] else StreakAlerts(start, k - 1) + FailureAlerts(start + k)
  }

  /**
   * A run of consecutive failures alerts exactly once, at the failure that
   * brings the count to the threshold, and not at all if the count was
   * already past it.
   */
  lemma {:induction false} StreakAlertsOnce(start: nat, k: nat)
    ensures StreakAlerts(start, k) ==
      if start < CriticalFailureCount <= start + k then [Alert(AlertMessage)] else []
  {
    if k > 0 {
      StreakAlertsOnce(start, k - 1);
    }
  }

  /** `failed_calls` after a series of polls (true for a success), starting from `start`. */
  function FailedCallsAfter(start: nat, succeeded: seq<bool>): nat {
    if succeeded == [] then start
    else NextFailedCalls(FailedCallsAfter(start, succeeded[..|succeeded| - 1]), succeeded[|succeeded| - 1])
  }

  /** Poll `i` of the series alerts: it failed and brought the count to the threshold. */
  predicate AlertsAt(start: nat, succeeded: seq<bool>, i: nat)
    requires i < |succeeded|
  {
    !succeeded[i] && FailedCallsAfter(start, succeeded[..i + 1]) == CriticalFailureCount
  }

  /** Over a run of failures the count grows by one per failure. */
  lemma {:induction false} FailedCallsGrow(start: nat, succeeded: seq<bool>, i: nat, j: nat)
    requires i <= j <= |succeeded|
    requires forall k :: i <= k < j ==> !succeeded[k]
    ensures FailedCallsAfter(start, succeeded[..j]) == FailedCallsAfter(start, succeeded[..i]) + (j - i)
    decreases j - i
  {
    if i < j {
      FailedCallsGrow(start, succeeded, i, j - 1);
      assert succeeded[..j][..j - 1] == succeeded[..j - 1];
    }
  }

  /**
   * The alert is edge-triggered: after an alert, no later poll alerts again
   * unless some poll in between succeeded and re-armed the counter.
   */
  lemma NoRealertWithoutSuccess(start: nat, succeeded: seq<bool>, i: nat, j: nat)
    requires i < j < |succeeded| && AlertsAt(start, succeeded, i)
    requires forall k :: i < k < j ==> !succeeded[k]
    ensures !AlertsAt(start, succeeded, j)
  {
    if !succeeded[j] {
      FailedCallsGrow(start, succeeded, i + 1, j + 1);
    }
  }

  /** After a success, a run of `k` failures alerts exactly when `k` reaches the threshold. */
  lemma RearmedAfterSuccess(k: nat)
    ensures |StreakAlerts(NextFailedCalls(0, true), k)| == if k >= CriticalFailureCount then 1 else 0
  {
    StreakAlertsOnce(0, k);
  }

  // ---------------------------------------------------------------------------
  // Reconciliation of two rosters
  // ---------------------------------------------------------------------------

  /** The disconnections for the vanished names among `names`, each carrying its old record. */
  ghost function DisconnectEventsAmong(before: Roster, after: Roster, names: set<string>): set<Event> {
    set n | n in names && n in before && n !in after :: Disconnected(before[n])
  }

  /** The connections for the new names among `names`, each carrying its new record. */
  ghost function ConnectEventsAmong(before: Roster, after: Roster, names: set<string>): set<Event> {
    set n | n in names && n in after && n !in before :: Connected(after[n])
  }

  /** A disconnection for every name that vanished. */
  ghost function DisconnectEvents(before: Roster, after: Roster): set<Event> {
    DisconnectEventsAmong(before, after, before.Keys)
  }

  /** A connection for every name that appeared. */
  ghost function ConnectEvents(before: Roster, after: Roster): set<Event> {
    ConnectEventsAmong(before, after, after.Keys)
  }

  /** The events a sequence holds, forgetting order and repetition. */
  ghost function Elements(s: seq<Event>): set<Event> {
    set e | e in s
  }

  ghost predicate NoDuplicates(s: seq<Event>) {
    forall i, j :: 0 <= i < j < |s| ==> s[i] != s[j]
  }

  /**
   * `tick` is what one successful poll sends: the disconnections, each
   * once, then the connections, each once, and nothing else.
   */
  ghost predicate IsReconciliation(before: Roster, after: Roster, tick: seq<Event>) {
    var k := |before.Keys - after.Keys|;
    && |tick| == k + |after.Keys - before.Keys|
    && Elements(tick[..k]) == DisconnectEvents(before, after)
    && Elements(tick[k..]) == ConnectEvents(before, after)
    && NoDuplicates(tick)
  }

  /** A disconnection among `names` names a vanished member of `names` and carries its old record. */
  lemma DisconnectEventOf(before: Roster, after: Roster, names: set<string>, e: Event)
    requires WellFormedRoster(before) && e in DisconnectEventsAmong(before, after, names)
    ensures e.Disconnected? && e.client.name in names && e.client.name in before
    ensures e.client.name !in after && e == Disconnected(before[e.client.name])
  {
    var n :| n in names && n in before && n !in after && e == Disconnected(before[n]);
    assert before[n].name == n;
  }

  /** A connection among `names` names a new member of `names` and carries its new record. */
  lemma ConnectEventOf(before: Roster, after: Roster, names: set<string>, e: Event)
    requires WellFormedRoster(after) && e in ConnectEventsAmong(before, after, names)
    ensures e.Connected? && e.client.name in names && e.client.name in after
    ensures e.client.name !in before && e == Connected(after[e.client.name])
  {
    var n :| n in names && n in after && n !in before && e == Connected(after[n]);
    assert after[n].name == n;
  }

  /**
   * Progress of the pass over the old roster: having visited the names in
   * `done`, `gone` reports each vanished one among them once.
   */
  ghost predicate DisconnectsSoFar(before: Roster, after: Roster, done: set<string>, gone: seq<Event>) {
    && |gone| == |done - after.Keys|
    && Elements(gone) == DisconnectEventsAmong(before, after, done)
    && NoDuplicates(gone)
  }

  /**
   * Progress of the pass over the new roster: having visited the names in
   * `done`, `appeared` reports each new one among them once.
   */
  ghost predicate ConnectsSoFar(before: Roster, after: Roster, done: set<string>, appeared: seq<Event>) {
    && |appeared| == |done - before.Keys|
    && Elements(appeared) == ConnectEventsAmong(before, after, done)
    && NoDuplicates(appeared)
  }

  /** Where an event of a sequence sits. */
  lemma Position(s: seq<Event>, e: Event) returns (i: nat)
    requires e in Elements(s)
    ensures i < |s| && s[i] == e
  {
    i :| i < |s| && s[i] == e;
  }

  /** Appending an event adds it to the elements. */
  lemma ElementsSnoc(s: seq<Event>, e: Event)
    ensures Elements(s + [e]) == Elements(s) + {e}
  {
  }

  /** Appending a new event keeps a sequence free of duplicates. */
  lemma NoDuplicatesSnoc(s: seq<Event>, e: Event)
    requires NoDuplicates(s) && e !in s
    ensures NoDuplicates(s + [e])
  {
    var t := s + [e];
    forall i, j | 0 <= i < j < |t| ensures t[i] != t[j] {
      assert t[i] == s[i];
      if j < |s| {
        assert t[j] == s[j];
      }
    }
  }

  /** The disconnections among one more name: one more when it vanished, the same otherwise. */
  lemma DisconnectEventsGrow(before: Roster, after: Roster, done: set<string>, name: string)
    requires WellFormedRoster(before) && name in before
    ensures DisconnectEventsAmong(before, after, done + {name}) ==
      if name in after then DisconnectEventsAmong(before, after, done)
      else DisconnectEventsAmong(before, after, done) + {Disconnected(before[name])}
  {
    var among := DisconnectEventsAmong(before, after, done);
    forall x | x in DisconnectEventsAmong(before, after, done + {name})
      ensures x in among || (name !in after && x == Disconnected(before[name]))
    {
      DisconnectEventOf(before, after, done + {name}, x);
    }
  }

  /** The connections among one more name: one more when it is new, the same otherwise. */
  lemma ConnectEventsGrow(before: Roster, after: Roster, done: set<string>, name: string)
    requires WellFormedRoster(after) && name in after
    ensures ConnectEventsAmong(before, after, done + {name}) ==
      if name in before then ConnectEventsAmong(before, after, done)
      else ConnectEventsAmong(before, after, done) + {Connected(after[name])}
  {
    var among := ConnectEventsAmong(before, after, done);
    forall x | x in ConnectEventsAmong(before, after, done + {name})
      ensures x in among || (name !in before && x == Connected(after[name]))
    {
      ConnectEventOf(before, after, done + {name}, x);
    }
  }

  /** Moving one name from the names still to visit to the visited ones. */
  lemma VisitOne(done: set<string>, pending: set<string>, all: set<string>, name: string)
    requires name in pending && done !! pending && done + pending == all
    ensures name !in done
    ensures (done + {name}) !! (pending - {name}) && (done + {name}) + (pending - {name}) == all
  {
  }

  /** Counting the visited names outside `keys` as one more name is visited. */
  lemma CountStep(done: set<string>, keys: set<string>, name: string)
    requires name !in done
    ensures |(done + {name}) - keys| == |done - keys| + if name in keys then 0 else 1
  {
    if name in keys {
      assert (done + {name}) - keys == done - keys;
    } else {
      assert (done + {name}) - keys == (done - keys) + {name};
    }
  }

  /** Visiting one more old name keeps the first pass on track. */
  lemma DisconnectStep(before: Roster, after: Roster, done: set<string>, gone: seq<Event>, name: string)
    requires WellFormedRoster(before) && name in before && name !in done
    requires DisconnectsSoFar(before, after, done, gone)
    ensures DisconnectsSoFar(before, after, done + {name},
      if name in after then gone else gone + [Disconnected(before[name])])
  {
    DisconnectEventsGrow(before, after, done, name);
    CountStep(done, after.Keys, name);
    if name !in after {
      var e := Disconnected(before[name]);
      ElementsSnoc(gone, e);
      if e in gone {
        assert e in Elements(gone);
        DisconnectEventOf(before, after, done, e);
      }
      NoDuplicatesSnoc(gone, e);
    }
  }

  /** Visiting one more new name keeps the second pass on track. */
  lemma ConnectStep(before: Roster, after: Roster, done: set<string>, appeared: seq<Event>, name: string)
    requires WellFormedRoster(after) && name in after && name !in done
    requires ConnectsSoFar(before, after, done, appeared)
    ensures ConnectsSoFar(before, after, done + {name},
      if name in before then appeared else appeared + [Connected(after[name])])
  {
    ConnectEventsGrow(before, after, done, name);
    CountStep(done, before.Keys, name);
    if name !in before {
      var e := Connected(after[name]);
      ElementsSnoc(appeared, e);
      if e in appeared {
        assert e in Elements(appeared);
        ConnectEventOf(before, after, done, e);
      }
      NoDuplicatesSnoc(appeared, e);
    }
  }

  /** Two duplicate-free sequences with no element in common join without duplicates. */
  lemma NoDuplicatesAppend(s: seq<Event>, t: seq<Event>)
    requires NoDuplicates(s) && NoDuplicates(t)
    requires forall i, j :: 0 <= i < |s| && 0 <= j < |t| ==> s[i] != t[j]
    ensures NoDuplicates(s + t)
  {
    var u := s + t;
    forall i, j | 0 <= i < j < |u| ensures u[i] != u[j] {
      if j < |s| {
        assert u[i] == s[i] && u[j] == s[j];
      } else if i < |s| {
        assert u[i] == s[i] && u[j] == t[j - |s|];
      } else {
        assert u[i] == t[i - |s|] && u[j] == t[j - |s|];
      }
    }
  }

  /** Both passes complete: the disconnections followed by the connections make a reconciliation. */
  lemma PassesReconcile(before: Roster, after: Roster, gone: seq<Event>, appeared: seq<Event>)
    requires WellFormedRoster(before) && WellFormedRoster(after)
    requires DisconnectsSoFar(before, after, before.Keys, gone)
    requires ConnectsSoFar(before, after, after.Keys, appeared)
    ensures IsReconciliation(before, after, gone + appeared)
  {
    var tick := gone + appeared;
    assert tick[..|gone|] == gone && tick[|gone|..] == appeared;
    forall i, j | 0 <= i < |gone| && 0 <= j < |appeared| ensures gone[i] != appeared[j] {
      assert gone[i] in Elements(gone) && appeared[j] in Elements(appeared);
      DisconnectEventOf(before, after, before.Keys, gone[i]);
    }
    NoDuplicatesAppend(gone, appeared);
  }

  /** The names carried by the disconnections of a tick. */
  ghost function DisconnectedNames(tick: seq<Event>): set<string> {
    set i | 0 <= i < |tick| && tick[i].Disconnected? :: tick[i].client.name
  }

  /** The names carried by the connections of a tick. */
  ghost function ConnectedNames(tick: seq<Event>): set<string> {
    set i | 0 <= i < |tick| && tick[i].Connected? :: tick[i].client.name
  }

  /** Where the events of a reconciliation sit: disconnections first, connections after. */
  lemma ReconciliationEventAt(before: Roster, after: Roster, tick: seq<Event>, i: nat)
    requires IsReconciliation(before, after, tick) && i < |tick|
    ensures var k := |before.Keys - after.Keys|;
      && (i < k ==> tick[i] in DisconnectEvents(before, after))
      && (i >= k ==> tick[i] in ConnectEvents(before, after))
  {
    var k := |before.Keys - after.Keys|;
    if i < k {
      assert tick[..k][i] in Elements(tick[..k]);
    } else {
      assert tick[k..][i - k] in Elements(tick[k..]);
    }
  }

  /** The kind of an event tells which part of a reconciliation it sits in. */
  lemma ReconciliationKindAt(before: Roster, after: Roster, tick: seq<Event>, i: nat)
    requires IsReconciliation(before, after, tick) && i < |tick|
    ensures var k := |before.Keys - after.Keys|;
      && (tick[i].Disconnected? <==> i < k)
      && (tick[i].Connected? <==> i >= k)
  {
    ReconciliationEventAt(before, after, tick, i);
    if i < |before.Keys - after.Keys| {
      var n :| n in before && n !in after && tick[i] == Disconnected(before[n]);
    } else {
      var n :| n in after && n !in before && tick[i] == Connected(after[n]);
    }
  }

  /**
   * Diff correctness: the disconnected names are exactly the old names
   * missing from the new roster, and the connected names exactly the new
   * names missing from the old one.
   */
  lemma ReconciliationNames(before: Roster, after: Roster, tick: seq<Event>)
    requires WellFormedRoster(before) && WellFormedRoster(after)
    requires IsReconciliation(before, after, tick)
    ensures DisconnectedNames(tick) == before.Keys - after.Keys
    ensures ConnectedNames(tick) == after.Keys - before.Keys
  {
    DisconnectedNamesExact(before, after, tick);
    ConnectedNamesExact(before, after, tick);
  }

  /** The disconnection half of `ReconciliationNames`. */
  lemma DisconnectedNamesExact(before: Roster, after: Roster, tick: seq<Event>)
    requires WellFormedRoster(before) && WellFormedRoster(after)
    requires IsReconciliation(before, after, tick)
    ensures DisconnectedNames(tick) == before.Keys - after.Keys
  {
    var k := |before.Keys - after.Keys|;
    forall n | n in before.Keys - after.Keys ensures n in DisconnectedNames(tick) {
      var i := Position(tick[..k], Disconnected(before[n]));
      assert tick[i] == Disconnected(before[n]);
    }
    forall i | 0 <= i < |tick| && tick[i].Disconnected?
      ensures tick[i].client.name in before.Keys - after.Keys
    {
      ReconciliationKindAt(before, after, tick, i);
      ReconciliationEventAt(before, after, tick, i);
      DisconnectEventOf(before, after, before.Keys, tick[i]);
    }
  }

  /** The connection half of `ReconciliationNames`. */
  lemma ConnectedNamesExact(before: Roster, after: Roster, tick: seq<Event>)
    requires WellFormedRoster(before) && WellFormedRoster(after)
    requires IsReconciliation(before, after, tick)
    ensures ConnectedNames(tick) == after.Keys - before.Keys
  {
    forall n | n in after.Keys - before.Keys ensures n in ConnectedNames(tick) {
      ConnectedNameReported(before, after, tick, n);
    }
    forall i | 0 <= i < |tick| && tick[i].Connected?
      ensures tick[i].client.name in after.Keys - before.Keys
    {
      ReconciliationKindAt(before, after, tick, i);
      ReconciliationEventAt(before, after, tick, i);
      ConnectEventOf(before, after, after.Keys, tick[i]);
    }
  }

  /** Every new name is connected somewhere in the second part of a tick. */
  lemma ConnectedNameReported(before: Roster, after: Roster, tick: seq<Event>, n: string)
    requires IsReconciliation(before, after, tick)
    requires n in after && n !in before && after[n].name == n
    ensures n in ConnectedNames(tick)
  {
    var k := |before.Keys - after.Keys|;
    var e := Connected(after[n]);
    assert e in Elements(tick[k..]);
    var i :| k <= i < |tick| && tick[i] == e;
  }

  /**
   * Names in both rosters are silent, and so is the placeholder name: no
   * event of a tick carries either; equal key sets give no event at all.
   */
  lemma ReconciliationSilent(before: Roster, after: Roster, tick: seq<Event>)
    requires WellFormedRoster(before) && WellFormedRoster(after)
    requires IsReconciliation(before, after, tick)
    ensures forall i :: 0 <= i < |tick| ==>
      !tick[i].Alert? && tick[i].client.name !in before.Keys * after.Keys && tick[i].client.name != Undef
    ensures before.Keys == after.Keys ==> tick == []
  {
    var k := |before.Keys - after.Keys|;
    forall i | 0 <= i < |tick|
      ensures !tick[i].Alert? && tick[i].client.name !in before.Keys * after.Keys
      ensures !tick[i].Alert? && tick[i].client.name != Undef
    {
      ReconciliationEventAt(before, after, tick, i);
      if i < k {
        DisconnectEventOf(before, after, before.Keys, tick[i]);
      } else {
        ConnectEventOf(before, after, after.Keys, tick[i]);
      }
    }
    if before.Keys == after.Keys {
      assert before.Keys - after.Keys == {} && after.Keys - before.Keys == {};
    }
  }

  /** In a sequence without duplicates every element occurs once. */
  lemma {:induction false} NoDuplicatesOccurOnce(s: seq<Event>, e: Event)
    requires NoDuplicates(s)
    ensures multiset(s)[e] == if e in s then 1 else 0
  {
    if s != [] {
      var init := s[..|s| - 1];
      assert s == init + [s[|s| - 1]];
      NoDuplicatesOccurOnce(init, e);
      if e == s[|s| - 1] {
        assert e !in init;
      }
    }
  }

  /**
   * Iteration order is the only freedom: any two ticks for the same rosters
   * send the same disconnections and the same connections, each group a
   * permutation of the other's.
   */
  lemma ReconciliationUpToOrder(before: Roster, after: Roster, t1: seq<Event>, t2: seq<Event>)
    requires IsReconciliation(before, after, t1) && IsReconciliation(before, after, t2)
    ensures var k := |before.Keys - after.Keys|;
      multiset(t1[..k]) == multiset(t2[..k]) && multiset(t1[k..]) == multiset(t2[k..])
  {
    var k := |before.Keys - after.Keys|;
    NoDuplicatesParts(t1, k);
    NoDuplicatesParts(t2, k);
    SameGroup(t1[..k], t2[..k]);
    SameGroup(t1[k..], t2[k..]);
  }

  /** Both ends of a sequence without duplicates are without duplicates. */
  lemma NoDuplicatesParts(s: seq<Event>, k: nat)
    requires NoDuplicates(s) && k <= |s|
    ensures NoDuplicates(s[..k]) && NoDuplicates(s[k..])
  {
    forall i, j | 0 <= i < j < |s| - k ensures s[k..][i] != s[k..][j] {
      assert s[k..][i] == s[k + i] && s[k..][j] == s[k + j];
    }
  }

  /** Two duplicate-free sequences with the same elements are permutations of each other. */
  lemma SameGroup(s1: seq<Event>, s2: seq<Event>)
    requires NoDuplicates(s1) && NoDuplicates(s2)
    requires Elements(s1) == Elements(s2)
    ensures multiset(s1) == multiset(s2)
  {
    forall e ensures multiset(s1)[e] == multiset(s2)[e] {
      NoDuplicatesOccurOnce(s1, e);
      NoDuplicatesOccurOnce(s2, e);
      assert e in s1 <==> e in Elements(s1);
      assert e in s2 <==> e in Elements(s2);
    }
  }

  /** First example: from an empty roster, one new client gives one connection carrying its record. */
  lemma FirstClientConnects(alice: Client, tick: seq<Event>)
    requires alice.name != Undef
    requires IsReconciliation(map[], map[alice.name := alice], tick)
    ensures tick == [Connected(alice)]
  {
    var none: Roster := map[];
    var after := map[alice.name := alice];
    assert none.Keys - after.Keys == {} && after.Keys - none.Keys == {alice.name};
    assert tick[0..] == tick;
    assert Connected(alice) in ConnectEvents(none, after);
    assert tick[0] in Elements(tick);
    ConnectEventOf(none, after, after.Keys, tick[0]);
  }

  /** Second example: a client missing from the new roster gives one disconnection carrying the old record. */
  lemma LastClientDisconnects(record: Client, tick: seq<Event>)
    requires record.name != Undef
    requires IsReconciliation(map[record.name := record], map[], tick)
    ensures tick == [Disconnected(record)]
  {
    var none: Roster := map[];
    var before := map[record.name := record];
    assert before.Keys - none.Keys == {record.name} && none.Keys - before.Keys == {};
    assert tick[..1] == tick;
    assert Disconnected(record) in DisconnectEvents(before, none);
    assert tick[0] in Elements(tick);
    DisconnectEventOf(before, none, before.Keys, tick[0]);
  }

  /**
   * The first loop of a successful tick: visit the stored names in some
   * order and report each one missing from `latest` with its old record.
   */
  method Vanished(before: Roster, latest: Roster) returns (gone: seq<Event>)
    requires WellFormedRoster(before)
    ensures DisconnectsSoFar(before, latest, before.Keys, gone)
  {
    gone := [];
    var pending := before.Keys;
    ghost var done: set<string> := {};
    while pending != {}
      invariant done !! pending && done + pending == before.Keys
      invariant DisconnectsSoFar(before, latest, done, gone)
      decreases pending
    {
      var name :| name in pending;
      VisitOne(done, pending, before.Keys, name);
      DisconnectStep(before, latest, done, gone, name);
      if name !in latest {
        gone := gone + [Disconnected(before[name])];
      }
      done := done + {name};
      pending := pending - {name};
    }
  }

  /**
   * The second loop of a successful tick: visit the names of `latest` in
   * some order and report each one not stored before with its new record.
   */
  method Appeared(before: Roster, latest: Roster) returns (appeared: seq<Event>)
    requires WellFormedRoster(latest)
    ensures ConnectsSoFar(before, latest, latest.Keys, appeared)
  {
    appeared := [];
    var pending := latest.Keys;
    ghost var done: set<string> := {};
    while pending != {}
      invariant done !! pending && done + pending == latest.Keys
      invariant ConnectsSoFar(before, latest, done, appeared)
      decreases pending
    {
      var name :| name in pending;
      VisitOne(done, pending, latest.Keys, name);
      ConnectStep(before, latest, done, appeared, name);
      if name !in before {
        appeared := appeared + [Connected(latest[name])];
      }
      done := done + {name};
      pending := pending - {name};
    }
  }

  // ---------------------------------------------------------------------------
  // Polling: `get_new_clients` with the network as input
  // ---------------------------------------------------------------------------

  /** What a poll ends in: a roster, a failure the controller counts, or a panic. */
  datatype PollOutcome = Fetched(roster: Roster) | Failed | Aborted(error: ParseError)

  /**
   * The outcome of a poll, given the connection: `None` when connecting or
   * writing the command fails, otherwise the results of the `read_line`
   * calls that returned data before the server closed the stream. The poll
   * uses the corrected read loop `ReadResponse`. A stream closed before `END` fails the poll; a
   * response with a malformed client line aborts the process.
   */
  function Outcome(connection: Option<seq<string>>): PollOutcome {
    match connection
    case None => Failed
    case Some(incoming) =>
      match ReceivedText(incoming)
      case None => Failed
      case Some(text) =>
        match CollectClients(Split(text, '\n'))
        case Ok(r) => Fetched(r)
        case Err(e) => Aborted(e)
  }

  /** `get_new_clients`: read the response, then parse it. */
  method GetNewClients(connection: Option<seq<string>>) returns (o: PollOutcome)
    ensures o == Outcome(connection)
    ensures o.Fetched? ==> WellFormedRoster(o.roster)
  {
    if connection.None? {
      return Failed;
    }
    var text := ReadResponse(connection.value);
    if text.None? {
      return Failed;
    }
    var parsed := ParseStatusOutput(text.value);
    match parsed
    case Ok(r) => o := Fetched(r);
    case Err(e) => o := Aborted(e);
  }

  // ---------------------------------------------------------------------------
  // The controller
  // ---------------------------------------------------------------------------

  class TcpController {
    /** `address:port` of the management interface. */
    const connectionString: string
    /** The roster seen at the last successful poll. */
    var clients: Roster
    /** Consecutive failed polls since the last success. */
    var failedCalls: nat
    /** Every call made into the notification sink, oldest first. */
    ghost var events: seq<Event>

    ghost predicate Valid()
      reads this
    {
      WellFormedRoster(clients)
    }

    /** The controller seeded with the roster of a successful first poll, and no events. */
    constructor (address: string, port: Port, initial: Roster)
      requires WellFormedRoster(initial)
      ensures Valid()
      ensures connectionString == address + ":" + DecimalString(port)
      ensures clients == initial && failedCalls == 0 && events == []
    {
      connectionString := address + ":" + DecimalString(port);
      clients := initial;
      failedCalls := 0;
      events := [];
    }

    /**
     * `new`: build the connection string and seed the roster from a first
     * poll; when that poll does not yield a roster the process exits.
     */
    static method Start(address: string, port: Port, connection: Option<seq<string>>)
      returns (c: Option<TcpController>)
      ensures c.Some? <==> Outcome(connection).Fetched?
      ensures c.Some? ==>
        && fresh(c.value) && c.value.Valid()
        && c.value.connectionString == address + ":" + DecimalString(port)
        && c.value.clients == Outcome(connection).roster
        && c.value.failedCalls == 0 && c.value.events == []
    {
      var first := GetNewClients(connection);
      if first.Fetched? {
        var controller := new TcpController(address, port, first.roster);
        c := Some(controller);
      } else {
        c := None;
      }
    }

    /**
     * One tick of `update_connected_clients` given the poll's result: a
     * failure bumps the counter and alerts at the threshold; a success
     * resets the counter, reports the vanished names with their old records
     * and the new names with their new records, and replaces the roster.
     */
    method Reconcile(poll: Option<Roster>)
      requires Valid()
      requires poll.Some? ==> WellFormedRoster(poll.value)
      modifies this
      ensures Valid()
      ensures failedCalls == NextFailedCalls(old(failedCalls), poll.Some?)
      ensures poll.None? ==> clients == old(clients) && events == old(events) + FailureAlerts(failedCalls)
      ensures poll.Some? ==>
        && clients == poll.value
        && |events| >= |old(events)| && events[..|old(events)|] == old(events)
        && IsReconciliation(old(clients), poll.value, events[|old(events)|..])
    {
      if poll.None? {
        failedCalls := failedCalls + 1;
        if failedCalls == CriticalFailureCount {
          events := events + [Alert(AlertMessage)];
        }
        return;
      }
      var latest := poll.value;
      failedCalls := 0;
      var gone := Vanished(clients, latest);
      var appeared := Appeared(clients, latest);
      PassesReconcile(clients, latest, gone, appeared);
      var tick := gone + appeared;
      events := events + tick;
      assert events[|old(events)|..] == tick;
      clients := latest;
    }

    /**
     * `update_connected_clients`: poll, then reconcile. A poll that aborts
     * (a malformed client line makes the Rust code panic) changes nothing:
     * the process is gone.
     */
    method UpdateConnectedClients(connection: Option<seq<string>>) returns (aborted: bool)
      requires Valid()
      modifies this
      ensures Valid()
      ensures aborted <==> Outcome(connection).Aborted?
      ensures aborted ==> unchanged(this)
      ensures Outcome(connection).Failed? ==>
        && failedCalls == old(failedCalls) + 1 && clients == old(clients)
        && events == old(events) + FailureAlerts(failedCalls)
      ensures Outcome(connection).Fetched? ==>
        && failedCalls == 0 && clients == Outcome(connection).roster
        && |events| >= |old(events)| && events[..|old(events)|] == old(events)
        && IsReconciliation(old(clients), clients, events[|old(events)|..])
    {
      var outcome := GetNewClients(connection);
      match outcome
      case Failed =>
        Reconcile(None);
        aborted := false;
      case Fetched(r) =>
        Reconcile(Some(r));
        aborted := false;
      case Aborted(_) =>
        aborted := true;
    }
  }
}
