/** The command handlers that share the registry `running_servers`: `start` (the
    admission decision, the billing session it runs and the registry update after
    it), `stop`, `remaining`, `queue` and `daily`. Each handler runs to completion
    before the next one starts. */
module Admission {
  import opened Common
  import opened Ledger
  import opened Billing
  import opened Panel

  /** `start` refuses when this many ids are registered. */
  const MaxRunning := 4
  /** Initial value of `queue`'s running minimum. */
  const Sentinel := 999999999
  /** Minutes of waiting `queue` reports per unit of that minimum. */
  const WaitFactor := 5
  /** Credits `daily` grants to ordinary and to premium users. */
  const DailyGrant := 60
  const PremiumDailyGrant := 120

  /** The replies `start` reports back to the user instead of running a session. */
  datatype Rejection =
    | NotEnoughCredits
    | MaxServersReached
    | AccountNotFound
    | AlreadyActive
    | UnsuspendFault
    | UnsuspendUnusual(status: int)
    | NoAllocation

  /** What `start` decides before any session begins. */
  datatype Decision = Reject(why: Rejection) | Resume(serverId: int) | Provision(allocationId: int)

  /** The panel's answers to the calls `start` makes: the fresh `suspended` attribute
      from `get_server`, the status of `unsuspend_server`, the id of the server
      `create_server` returns, and the status of the final `suspend_server`. */
  datatype PanelReplies = PanelReplies(suspended: bool, unsuspendStatus: int, createdId: int, suspendStatus: int)

  /** How a `start` call ends. */
  datatype StartResult = Rejected(why: Rejection) | SessionEnded(serverId: int, session: Session, suspendStatus: int)

  /** Panel id of the first panel user whose username is `name`. */
  function AccountOf(users: seq<PanelUser>, name: string): (r: Option<int>)
    ensures r.None? <==> forall i :: 0 <= i < |users| ==> users[i].username != name
    ensures r.Some? ==> exists i :: (0 <= i < |users| && users[i].username == name && users[i].id == r.value
      && forall j :: 0 <= j < i ==> users[j].username != name)
  {
    match FirstIndex(users, (u: PanelUser) => u.username == name)
    case None => None
    case Some(i) => Some(users[i].id)
  }

  /** The first cached server owned by panel user `owner`. */
  function OwnedServer(servers: seq<PanelServer>, owner: int): (r: Option<PanelServer>)
    ensures r.None? <==> forall i :: 0 <= i < |servers| ==> servers[i].owner != owner
    ensures r.Some? ==> exists i :: (0 <= i < |servers| && servers[i] == r.value && r.value.owner == owner
      && forall j :: 0 <= j < i ==> servers[j].owner != owner)
  {
    match FirstIndex(servers, (s: PanelServer) => s.owner == owner)
    case None => None
    case Some(i) => Some(servers[i])
  }

  /** The first cached allocation not yet assigned to a server. */
  function FreeAllocation(allocations: seq<Allocation>): (r: Option<Allocation>)
    ensures r.None? <==> forall i :: 0 <= i < |allocations| ==> allocations[i].isAssigned
    ensures r.Some? ==> exists i :: (0 <= i < |allocations| && allocations[i] == r.value && !r.value.isAssigned
      && forall j :: 0 <= j < i ==> allocations[j].isAssigned)
  {
    match FirstIndex(allocations, (a: Allocation) => !a.isAssigned)
    case None => None
    case Some(i) => Some(allocations[i])
  }

  /** The decision part of `start` for user `userId` with balance `credits` and
      ledger flag `hasServer`, against the registry and the cached snapshot. The
      checks run in order and the first that fails decides. */
  function Admit(credits: int, running: seq<int>, snap: Snapshot, userId: nat, hasServer: bool,
                 suspended: bool, unsuspendStatus: int): (a: Decision)
    ensures credits < 1 ==> a == Reject(NotEnoughCredits)
    ensures credits >= 1 && |running| == MaxRunning ==> a == Reject(MaxServersReached)
    ensures !a.Reject? ==> credits >= 1 && |running| != MaxRunning
    ensures !a.Reject? ==> AccountOf(snap.users, Decimal(userId)).Some?
    ensures a.Resume? ==> (suspended && unsuspendStatus == NoContent
      && OwnedServer(snap.servers, AccountOf(snap.users, Decimal(userId)).value).Some?
      && a.serverId == OwnedServer(snap.servers, AccountOf(snap.users, Decimal(userId)).value).value.id)
    ensures a.Provision? ==> (!hasServer
      && OwnedServer(snap.servers, AccountOf(snap.users, Decimal(userId)).value).None?
      && exists i :: (0 <= i < |snap.allocations| && !snap.allocations[i].isAssigned
        && snap.allocations[i].id == a.allocationId
        && forall j :: 0 <= j < i ==> snap.allocations[j].isAssigned))
  {
    if credits < 1 then Reject(NotEnoughCredits)
    else if |running| == MaxRunning then Reject(MaxServersReached)
    else match AccountOf(snap.users, Decimal(userId))
      case None => Reject(AccountNotFound)
      case Some(owner) =>
        match OwnedServer(snap.servers, owner)
        case Some(server) =>
          if !suspended then Reject(AlreadyActive)
          else if unsuspendStatus == NoContent then Resume(server.id)
          else if unsuspendStatus == ServerError then Reject(UnsuspendFault)
          else Reject(UnsuspendUnusual(unsuspendStatus))
        case None =>
          if hasServer then Reject(AlreadyActive)
          else match FreeAllocation(snap.allocations)
            case None => Reject(NoAllocation)
            case Some(alloc) => Provision(alloc.id)
  }

  /** For a synced user who owns no server and has no ledger flag, `start` either
      takes a free allocation or reports that none is left, and the latter exactly
      when every cached allocation is assigned. */
  lemma NoAllocationIffAllAssigned(credits: int, running: seq<int>, snap: Snapshot, userId: nat,
                                   suspended: bool, unsuspendStatus: int)
    requires credits >= 1 && |running| != MaxRunning
    requires AccountOf(snap.users, Decimal(userId)).Some?
    requires OwnedServer(snap.servers, AccountOf(snap.users, Decimal(userId)).value).None?
    ensures var a := Admit(credits, running, snap, userId, false, suspended, unsuspendStatus);
      && (a.Provision? || a == Reject(NoAllocation))
      && (a == Reject(NoAllocation) <==> forall i :: 0 <= i < |snap.allocations| ==> snap.allocations[i].isAssigned)
  {
  }

  /** For a synced user who owns a cached server, `start` resumes it exactly when the
      panel says it is suspended and the unsuspend answers 204; a 500 and any other
      status are reported apart, and a running server is refused. */
  lemma ExistingServerOutcomes(credits: int, running: seq<int>, snap: Snapshot, userId: nat, hasServer: bool,
                               suspended: bool, unsuspendStatus: int)
    requires credits >= 1 && |running| != MaxRunning
    requires AccountOf(snap.users, Decimal(userId)).Some?
    requires OwnedServer(snap.servers, AccountOf(snap.users, Decimal(userId)).value).Some?
    ensures var a := Admit(credits, running, snap, userId, hasServer, suspended, unsuspendStatus);
      && (a.Resume? <==> suspended && unsuspendStatus == NoContent)
      && (a == Reject(AlreadyActive) <==> !suspended)
      && (a == Reject(UnsuspendFault) <==> suspended && unsuspendStatus == ServerError)
      && !a.Provision?
  {
  }

  /** The registry after a session: the id is removed (its first occurrence) only
      when the final suspend answered 204, and stays otherwise. */
  function Release(running: seq<int>, userId: int, suspendStatus: int): (r: seq<int>)
    requires userId in running
    ensures suspendStatus == NoContent ==> |r| == |running| - 1 && multiset(r) == multiset(running) - multiset{userId}
    ensures suspendStatus == NoContent ==> exists i :: (0 <= i < |running| && running[i] == userId
      && userId !in running[..i] && r == running[..i] + running[i + 1..])
    ensures suspendStatus != NoContent ==> r == running
  {
    if suspendStatus == NoContent then RemoveFirst(running, userId) else running
  }

  /** A session of a user who was not registered leaves the registry as it was
      before `start` when the final suspend answers 204. */
  lemma ReleaseRestores(running: seq<int>, userId: int)
    requires userId !in running
    ensures Release(running + [userId], userId, NoContent) == running
  {
    RemoveFirstAppended(running, userId);
  }

  /** The value `queue` takes for one registered user: 0 when a stop is pending,
      otherwise the balance (0 for a user without a row). */
  function QueueValue(rows: map<int, Row>, id: int): int
  {
    if StopOf(rows, id) then 0 else CreditsOf(rows, id)
  }

  /** The minutes `remaining` reports for a registered user. */
  function RemainingOf(rows: map<int, Row>, id: int): int
  {
    if StopOf(rows, id) then 1 else CreditsOf(rows, id) + 1
  }

  /** The queue values of the registered users, in registry order. */
  function Values(rows: map<int, Row>, ids: seq<int>): (vals: seq<int>)
    ensures |vals| == |ids|
    ensures forall i :: 0 <= i < |ids| ==> vals[i] == QueueValue(rows, ids[i])
  {
    seq(|ids|, i requires 0 <= i < |ids| => QueueValue(rows, ids[i]))
  }

  /** What `queue`'s running minimum ends at after `vals`: one more than the least
      value when that is below the sentinel, the sentinel otherwise. */
  function Bound(vals: seq<int>): int
  {
    if |vals| == 0 then Sentinel
    else if SeqMin(vals) < Sentinel then SeqMin(vals) + 1
    else Sentinel
  }

  /** The wait `queue` reports: only when exactly MaxRunning ids are registered. */
  function QueueWait(vals: seq<int>): Option<int>
  {
    if |vals| == MaxRunning then Some(WaitFactor * Bound(vals)) else None
  }

  /** One step of `queue`'s loop keeps its accumulator equal to Bound. While no value
      so far is below the sentinel, the accumulator is the sentinel, and the first x
      below it sets it to x + 1. Once it is m + 1 for the least value m so far, a new
      value x with x < m + 1 is a new least value and sets it to x + 1, and a larger
      x changes neither. */
  lemma {:induction false} BoundStep(vals: seq<int>, x: int)
    ensures Bound(vals + [x]) == if x < Bound(vals) then x + 1 else Bound(vals)
  {
    if |vals| == 0 {
      assert vals + [x] == [x];
    } else {
      SeqMinSnoc(vals, x);
    }
  }

  /** When no registered value is below the sentinel, the accumulator never moves
      and a full registry reports WaitFactor times the sentinel. */
  lemma QueueAtSentinel(vals: seq<int>)
    requires |vals| == MaxRunning
    requires forall i :: 0 <= i < |vals| ==> vals[i] >= Sentinel
    ensures QueueWait(vals) == Some(WaitFactor * Sentinel)
  {
  }

  /** A user in the registry has at least one minute remaining, and `remaining` is
      one more than the user's queue value. */
  lemma RemainingIsQueueValuePlusOne(rows: map<int, Row>, id: int)
    requires NonNegative(rows)
    ensures RemainingOf(rows, id) == QueueValue(rows, id) + 1 >= 1
  {
  }

  /** With the registry full and some value below the sentinel, the queue wait is
      WaitFactor times the least `remaining` of the registered users. */
  lemma {:induction false} QueueIsLeastRemaining(rows: map<int, Row>, running: seq<int>)
    requires |running| == MaxRunning
    requires SeqMin(Values(rows, running)) < Sentinel
    ensures exists i :: (0 <= i < |running|
      && QueueWait(Values(rows, running)) == Some(WaitFactor * RemainingOf(rows, running[i]))
      && forall j :: 0 <= j < |running| ==> RemainingOf(rows, running[i]) <= RemainingOf(rows, running[j]))
  {
    var vals := Values(rows, running);
    var m := SeqMin(vals);
    var i :| 0 <= i < |vals| && vals[i] == m;
    assert forall j :: 0 <= j < |running| ==> vals[i] <= vals[j] by {
      forall j | 0 <= j < |running| ensures vals[i] <= vals[j] {
        assert vals[j] in vals;
      }
    }
  }

  /** Four registered users whose sessions have 3, 5, 1 and 7 minutes left: the
      queue reports 5 minutes; with three registered it reports no queue. */
  lemma QueueExample()
    ensures QueueWait([2, 4, 0, 6]) == Some(5)
    ensures QueueWait([2, 4, 0]) == None
  {
    assert SeqMin([2, 4, 0, 6]) == 0 by {
      assert [2, 4, 0, 6][..3] == [2, 4, 0];
      assert [2, 4, 0][..2] == [2, 4];
      assert [2, 4][..1] == [2];
    }
  }

  /** The bot's shared state: the registry `running_servers`, the `users` table and
      the panel cache. */
  class Controller {
    var running: seq<int>
    const table: Table
    var snapshot: Snapshot

    /** The registry never exceeds the cap and no balance is negative. */
    ghost predicate Valid()
      reads this, table
    {
      |running| <= MaxRunning && NonNegative(table.rows)
    }

    constructor (table: Table, snapshot: Snapshot)
      requires NonNegative(table.rows)
      ensures Valid()
      ensures running == [] && this.table == table && this.snapshot == snapshot
    {
      running := [];
      this.table := table;
      this.snapshot := snapshot;
    }

    /** `start`: decides with Admit, and on admission registers the user, runs the
        billing session (marking the ledger first when it provisions a new server)
        and releases the registry entry according to the final suspend status. */
    method Start(userId: nat, replies: PanelReplies, stops: seq<bool>) returns (result: StartResult)
      requires Valid()
      modifies this`running, table
      ensures Valid()
      ensures var rows0 := old(table.rows);
        var a := Admit(CreditsOf(rows0, userId), old(running), snapshot, userId, HasServerOf(rows0, userId),
                       replies.suspended, replies.unsuspendStatus);
        var run := CreditSession(CreditsOf(rows0, userId), StopOf(rows0, userId), stops);
        && (a.Reject? ==> result == Rejected(a.why) && running == old(running) && table.rows == rows0)
        && (!a.Reject? ==> (userId in rows0
             && running == Release(old(running) + [userId], userId, replies.suspendStatus)
             && result == SessionEnded(if a.Resume? then a.serverId else replies.createdId, run, replies.suspendStatus)
             && table.rows == rows0[userId := rows0[userId].(
                  serverStatus := a.Provision? || rows0[userId].serverStatus,
                  credits := run.credits, stopServer := run.stop)]))
    {
      var person := new Person(table, userId);
      var a := Admit(person.GetCredits(), running, snapshot, userId, person.HasServer(),
                     replies.suspended, replies.unsuspendStatus);
      if a.Reject? {
        result := Rejected(a.why);
        return;
      }
      var serverId := if a.Resume? then a.serverId else replies.createdId;
      var run, status := Serve(person, a.Provision?, replies.suspendStatus, stops);
      result := SessionEnded(serverId, run, status);
    }

    /** The session part of `start` once the user is admitted: registers the id, marks
        the ledger when a server was provisioned, runs the billing loop and releases
        the registry entry on a 204 suspend. */
    method Serve(person: Person, provisioned: bool, suspendStatus: int, stops: seq<bool>)
      returns (run: Session, status: int)
      requires Valid() && |running| < MaxRunning
      requires person.db == table && person.Valid() && person.existed
      requires CreditsOf(table.rows, person.userId) >= 1
      modifies this`running, table
      ensures Valid()
      ensures var rows0 := old(table.rows);
        var id := person.userId;
        && status == suspendStatus
        && run == CreditSession(CreditsOf(rows0, id), StopOf(rows0, id), stops)
        && running == Release(old(running) + [id], id, suspendStatus)
        && table.rows == rows0[id := rows0[id].(serverStatus := provisioned || rows0[id].serverStatus,
                                                credits := run.credits, stopServer := run.stop)]
    {
      ghost var rows0 := table.rows;
      var id := person.userId;
      BillingDebitsOnePerTick(CreditsOf(rows0, id), StopOf(rows0, id), stops);
      running := running + [id];
      if provisioned {
        var _ := person.SetServerStatus(true);
      }
      status, run := CreditReduction(person, stops, suspendStatus);
      Unregister(id, status);
      ghost var marked := rows0[id].(serverStatus := provisioned || rows0[id].serverStatus);
      Overwrite(rows0, id, marked, marked.(credits := run.credits, stopServer := run.stop));
    }

    /** The end of `start`: `running_servers.remove` of the user's id when the final
        suspend answered 204. */
    method Unregister(id: int, status: int)
      requires id in running
      modifies this`running
      ensures running == Release(old(running), id, status)
    {
      if status == NoContent {
        running := RemoveFirst(running, id);
      }
    }

    /** `stop`: for a registered user, raises the stop flag that the billing loop
        reads after its next tick. */
    method Stop(userId: int) returns (registered: bool)
      requires Valid()
      modifies table
      ensures Valid()
      ensures registered == (userId in running)
      ensures table.rows == if registered && userId in old(table.rows)
        then old(table.rows)[userId := old(table.rows)[userId].(stopServer := true)]
        else old(table.rows)
    {
      registered := userId in running;
      if registered {
        var person := new Person(table, userId);
        var _ := person.SetStopServer(true);
      }
    }

    /** `daily`: grants 120 credits to a premium user and 60 to anyone else, creating
        the row when there is none. */
    method Daily(userId: int) returns (amount: int)
      requires Valid()
      modifies table
      ensures Valid()
      ensures amount == if PremiumOf(old(table.rows), userId) then PremiumDailyGrant else DailyGrant
      ensures table.rows == if userId in old(table.rows)
        then old(table.rows)[userId := old(table.rows)[userId].(credits := old(table.rows)[userId].credits + amount)]
        else old(table.rows)[userId := NewRow(amount, false)]
    {
      var person := new Person(table, userId);
      if person.premium {
        amount := PremiumDailyGrant;
      } else {
        amount := DailyGrant;
      }
      var _ := person.UpdateCredits(amount);
    }

    /** `remaining`: minutes left for a registered user, None for anyone else. */
    function Remaining(userId: int): (r: Option<int>)
      reads this, table
      ensures r.Some? <==> userId in running
      ensures r.Some? && NonNegative(table.rows) ==> r.value >= 1
    {
      if userId in running then Some(RemainingOf(table.rows, userId)) else None
    }

    /** `queue`: with a full registry, tracks the running minimum as `queue` in
        bot.py does and reports it times WaitFactor. */
    method Queue() returns (wait: Option<int>)
      ensures wait == QueueWait(Values(table.rows, running))
    {
      if |running| > 0 && |running| == MaxRunning {
        ghost var vals := Values(table.rows, running);
        var minimal := Sentinel;
        for i := 0 to |running|
          invariant minimal == Bound(vals[..i])
        {
          var person := new Person(table, running[i]);
          var userCredits;
          if person.StopServer() {
            userCredits := 0;
          } else {
            userCredits := person.GetCredits();
          }
          assert vals[..i + 1] == vals[..i] + [userCredits];
          BoundStep(vals[..i], userCredits);
          if userCredits < minimal {
            minimal := userCredits + 1;
          }
        }
        assert vals[..|running|] == vals;
        wait := Some(minimal * WaitFactor);
      } else {
        wait := None;
      }
    }
  }
}
