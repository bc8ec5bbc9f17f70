/**
 * The visitor ledger (class `VisitorManager`): check-ins and check-outs are
 * written to the remote `visitors` collection when it can be reached and
 * always to the log kept in local storage; reads take the remote list when
 * it is reachable and non-empty, and the local log otherwise.
 */
module VisitorLog {
  import opened Common
  import opened VisitorView

  /** One reading of the clock: `Date.now()`, `toLocaleString()` and `toISOString()`. */
  datatype Clock = Clock(millis: int, localTime: string, isoTime: string)

  /**
   * The object handed to `logVisitor`. The form supplies the six text fields;
   * `id` and the stamp fields stand for any extra properties it might carry.
   */
  datatype VisitorData = VisitorData(
    id: Option<int>,
    name: string,
    phone: string,
    email: string,
    purpose: string,
    host: string,
    notes: string,
    entryTime: Option<string>,
    exitTime: Option<string>,
    status: Option<string>,
    loggedBy: Option<string>,
    createdAt: Option<string>)

  /**
   * `{ id: Date.now(), ...visitorData, entryTime, exitTime: '', status: 'In',
   * loggedBy, createdAt }`: a supplied id wins over the clock, the stamps
   * written after the spread win over anything supplied.
   */
  function NewRecord(data: VisitorData, loggedBy: string, clock: Clock): (v: Visitor)
    ensures v.id == (if data.id.Some? then data.id.value else clock.millis)
    ensures (v.name, v.phone, v.email, v.purpose, v.host, v.notes)
         == (data.name, data.phone, data.email, data.purpose, data.host, data.notes)
    ensures v.status == In && v.exitTime == "" && NoExitWhileIn([v])
    ensures v.entryTime == clock.localTime && v.createdAt == clock.isoTime && v.loggedBy == loggedBy
  {
    Visitor(
      id := if data.id.Some? then data.id.value else clock.millis,
      name := data.name, phone := data.phone, email := data.email,
      purpose := data.purpose, host := data.host, notes := data.notes,
      entryTime := clock.localTime, exitTime := "", status := In,
      loggedBy := loggedBy, createdAt := clock.isoTime)
  }

  /** Stamps passed in by the caller never reach the record. */
  lemma CallerStampsIgnored(d1: VisitorData, d2: VisitorData, loggedBy: string, clock: Clock)
    requires d1.(entryTime := None, exitTime := None, status := None, loggedBy := None, createdAt := None)
          == d2.(entryTime := None, exitTime := None, status := None, loggedBy := None, createdAt := None)
    ensures NewRecord(d1, loggedBy, clock) == NewRecord(d2, loggedBy, clock)
    ensures NewRecord(d1, loggedBy, clock).status == In && NewRecord(d1, loggedBy, clock).exitTime == ""
  {
  }

  /** A record still inside has no exit time. */
  ghost predicate NoExitWhileIn(logs: seq<Visitor>)
  {
    forall i :: 0 <= i < |logs| && logs[i].status == In ==> logs[i].exitTime == ""
  }

  function MarkedOut(v: Visitor, exitTime: string): Visitor
  {
    v.(status := Out, exitTime := exitTime)
  }

  // ---------------------------------------------------------------------
  // Check-out

  /** `logs.findIndex(log => log.id === id)`. */
  function FirstIndexOf(logs: seq<Visitor>, id: int): (r: int)
    ensures -1 <= r < |logs|
    ensures r == -1 <==> forall i :: 0 <= i < |logs| ==> logs[i].id != id
    ensures r != -1 ==> logs[r].id == id && forall i :: 0 <= i < r ==> logs[i].id != id
  {
    if logs == [] then -1
    else if logs[0].id == id then 0
    else
      var k := FirstIndexOf(logs[1..], id);
      if k == -1 then -1 else k + 1
  }

  /** The first matching index depends only on the ids. */
  lemma {:induction false} SameIdsSameIndex(a: seq<Visitor>, b: seq<Visitor>, id: int)
    requires |a| == |b| && forall i :: 0 <= i < |a| ==> a[i].id == b[i].id
    ensures FirstIndexOf(a, id) == FirstIndexOf(b, id)
  {
    if a != [] && a[0].id != id {
      SameIdsSameIndex(a[1..], b[1..], id);
    }
  }

  /**
   * `checkoutLocalVisitor` on a log: whether a record was found, and the log
   * afterwards. Only the first record with the id changes, and only in status
   * and exit time.
   */
  function CheckedOut(logs: seq<Visitor>, id: int, exitTime: string): (r: (bool, seq<Visitor>))
    ensures r.0 <==> exists i :: 0 <= i < |logs| && logs[i].id == id
    ensures |r.1| == |logs|
    ensures !r.0 ==> r.1 == logs
    ensures r.0 ==> exists i :: (
      && 0 <= i < |logs| && logs[i].id == id
      && (forall j :: 0 <= j < i ==> logs[j].id != id)
      && r.1[i] == MarkedOut(logs[i], exitTime)
      && (forall j :: 0 <= j < |logs| && j != i ==> r.1[j] == logs[j]))
    ensures forall j :: 0 <= j < |logs| ==> r.1[j].id == logs[j].id
    ensures forall j :: 0 <= j < |logs| && logs[j].status == Out ==> r.1[j].status == Out
    ensures NoExitWhileIn(logs) ==> NoExitWhileIn(r.1)
  {
    var i := FirstIndexOf(logs, id);
    if i == -1 then (false, logs) else (true, logs[i := MarkedOut(logs[i], exitTime)])
  }

  /**
   * Checking out an id a second time still reports success and leaves the log
   * as one check-out with the later time would.
   */
  lemma CheckoutTwice(logs: seq<Visitor>, id: int, first: string, second: string)
    ensures var once := CheckedOut(logs, id, first);
      CheckedOut(once.1, id, second) == (once.0, CheckedOut(logs, id, second).1)
  {
    var i := FirstIndexOf(logs, id);
    if i != -1 {
      var once := logs[i := MarkedOut(logs[i], first)];
      assert CheckedOut(logs, id, first) == (true, once);
      SameIdsSameIndex(once, logs, id);
      assert once[i := MarkedOut(once[i], second)] == logs[i := MarkedOut(logs[i], second)];
    }
  }

  /** The remote update of `checkoutVisitor`: every record with the id is checked out. */
  function CheckedOutAll(records: seq<Visitor>, id: int, exitTime: string): (r: seq<Visitor>)
    ensures |r| == |records|
    ensures forall j :: 0 <= j < |records| ==>
      r[j] == if records[j].id == id then MarkedOut(records[j], exitTime) else records[j]
    ensures NoExitWhileIn(records) ==> NoExitWhileIn(r)
  {
    if records == [] then []
    else
      [if records[0].id == id then MarkedOut(records[0], exitTime) else records[0]]
      + CheckedOutAll(records[1..], id, exitTime)
  }

  /**
   * With two records sharing an id, the local check-out leaves the later one
   * inside while the remote one checks out both.
   */
  lemma LocalChecksOutFirstOnly(logs: seq<Visitor>, i: int, j: int, exitTime: string)
    requires 0 <= i < j < |logs| && logs[i].id == logs[j].id && logs[j].status == In
    ensures CheckedOut(logs, logs[j].id, exitTime).1[j].status == In
    ensures CheckedOutAll(logs, logs[j].id, exitTime)[j].status == Out
  {
  }

  // ---------------------------------------------------------------------
  // The client object

  class VisitorManager {
    /** The `visitorLogs` slot of local storage: absent, or the saved log. */
    var local: Option<seq<Visitor>>
    /** The remote `visitors` collection, in the order its records were pushed. */
    var remote: seq<Visitor>

    ghost predicate Valid()
      reads this
    {
      NoExitWhileIn(LocalLogs()) && NoExitWhileIn(remote)
    }

    /** `getLocalLogs()`: an absent slot reads as the empty log. */
    function LocalLogs(): (logs: seq<Visitor>)
      reads this
      ensures local.Some? ==> logs == local.value
      ensures local.None? ==> logs == []
    {
      if local.Some? then local.value else []
    }

    /** `new VisitorManager()` over what the two stores already hold. */
    constructor (stored: Option<seq<Visitor>>, remoteVisitors: seq<Visitor>)
      requires stored.Some? ==> NoExitWhileIn(stored.value)
      requires NoExitWhileIn(remoteVisitors)
      ensures Valid() && remote == remoteVisitors
      ensures local == if stored.Some? then stored else Some([])
    {
      local := stored;
      remote := remoteVisitors;
      new;
      Init();
    }

    /** `init()`: create the empty log only when the slot is absent. */
    method Init()
      modifies this`local
      ensures local == if old(local).None? then Some([]) else old(local)
      ensures LocalLogs() == old(LocalLogs())
    {
      if local.None? {
        local := Some([]);
      }
    }

    /** `saveToLocalStorage(visitorLog)`: append to the local log. */
    method SaveToLocalStorage(v: Visitor)
      modifies this`local
      ensures local == Some(old(LocalLogs()) + [v])
    {
      var logs := LocalLogs();
      logs := logs + [v];
      local := Some(logs);
    }

    /**
     * `logVisitor(visitorData)`. `loggedBy` is `auth.currentUser.username`,
     * None when nobody is signed in: reading it then throws before anything
     * is written.
     */
    method LogVisitor(data: VisitorData, loggedBy: Option<string>, clock: Clock, online: bool)
      returns (logged: Option<Visitor>)
      requires Valid()
      modifies this
      ensures Valid()
      ensures loggedBy.None? ==> logged == None && unchanged(this)
      ensures loggedBy.Some? ==>
        && logged == Some(NewRecord(data, loggedBy.value, clock))
        && logged.value.status == In && logged.value.exitTime == ""
        && logged.value.loggedBy == loggedBy.value
        && local == Some(old(LocalLogs()) + [logged.value])
        && remote == if online then old(remote) + [logged.value] else old(remote)
    {
      if loggedBy.None? {
        return None;
      }
      var record := NewRecord(data, loggedBy.value, clock);
      if online {
        remote := remote + [record];
      }
      SaveToLocalStorage(record);
      logged := Some(record);
    }

    /** `checkoutLocalVisitor(id)`: the slot is rewritten only when a record was found. */
    method CheckoutLocalVisitor(id: int, exitTime: string) returns (found: bool)
      requires Valid()
      modifies this`local
      ensures Valid()
      ensures (found, LocalLogs()) == CheckedOut(old(LocalLogs()), id, exitTime)
      ensures !found ==> local == old(local)
    {
      var logs := LocalLogs();
      var index := FirstIndexOf(logs, id);
      if index != -1 {
        logs := logs[index := logs[index].(status := Out, exitTime := exitTime)];
        local := Some(logs);
        return true;
      }
      return false;
    }

    /**
     * `checkoutVisitor(id)`: the remote update is attempted and its failure
     * swallowed; the answer is that of the local check-out alone.
     */
    method CheckoutVisitor(id: int, exitTime: string, online: bool) returns (found: bool)
      requires Valid()
      modifies this
      ensures Valid()
      ensures remote == if online then CheckedOutAll(old(remote), id, exitTime) else old(remote)
      ensures (found, LocalLogs()) == CheckedOut(old(LocalLogs()), id, exitTime)
      ensures !found ==> local == old(local)
    {
      if online {
        remote := CheckedOutAll(remote, id, exitTime);
      }
      found := CheckoutLocalVisitor(id, exitTime);
    }

    /**
     * `loadVisitors()`: the remote list when it can be read and is non-empty,
     * otherwise the local log; the two are never merged.
     */
    method LoadVisitors(online: bool) returns (logs: seq<Visitor>)
      ensures online && remote != [] ==> logs == remote
      ensures !(online && remote != []) ==> logs == LocalLogs()
    {
      if online && remote != [] {
        logs := [];
        var i := 0;
        while i < |remote|
          invariant 0 <= i <= |remote|
          invariant logs == remote[..i]
        {
          logs := logs + [remote[i]];
          i := i + 1;
        }
        return;
      }
      logs := LocalLogs();
    }

    /** The records `renderLogs(tableBody, searchTerm)` puts in the table, in order. */
    method RenderLogs(searchTerm: string, online: bool) returns (shown: seq<Visitor>)
      ensures shown == View(if online && remote != [] then remote else LocalLogs(), searchTerm)
    {
      var logs := LoadVisitors(online);
      shown := View(logs, searchTerm);
    }
  }
}
