/** The bot's cached view of the Pterodactyl panel (`panel_users`, `panel_servers`,
    `panel_allocations`), reduced to the attributes the core reads, and the startup
    sweep `clear_queue` that suspends every running server except the two reserved
    ones. Responses of the panel's HTTP calls are inputs. */
module Panel {

  /** A panel account: its panel id and its username, which for DisMine users is
      the decimal Discord id. */
  datatype PanelUser = PanelUser(id: int, username: string)

  /** A server: its id, the panel id of its owner, and whether it is suspended. */
  datatype PanelServer = PanelServer(id: int, owner: int, suspended: bool)

  /** A node allocation and whether a server already uses it. */
  datatype Allocation = Allocation(id: int, isAssigned: bool)

  /** One refresh of the cache. */
  datatype Snapshot = Snapshot(users: seq<PanelUser>, servers: seq<PanelServer>, allocations: seq<Allocation>)

  /** Status the panel answers a successful suspend or unsuspend with. */
  const NoContent := 204
  /** Status of a server-side fault. */
  const ServerError := 500

  /** The character of a decimal digit. */
  function Digit(d: nat): (c: char)
    requires d < 10
    ensures '0' <= c <= '9'
  {
    ('0' as int + d) as char
  }

  /** Python's `str(n)` for a non-negative integer: no leading zero except for 0
      itself. */
  function Decimal(n: nat): (r: string)
    ensures |r| >= 1
    ensures forall i :: 0 <= i < |r| ==> '0' <= r[i] <= '9'
    ensures r[0] == '0' ==> n == 0
  {
    if n < 10 then [Digit(n)]
    else Decimal(n / 10) + [Digit(n % 10)]
  }

  /** The number a string of decimal digits spells, most significant digit first. */
  function DigitsValue(s: string): nat
  {
    if |s| == 0 then 0
    else
      var d := s[|s| - 1] as int - '0' as int;
      10 * DigitsValue(s[..|s| - 1]) + (if 0 <= d < 10 then d else 0)
  }

  /** `str(n)` spells n. */
  lemma {:induction false} DecimalValue(n: nat)
    ensures DigitsValue(Decimal(n)) == n
  {
    var r := Decimal(n);
    if n >= 10 {
      DecimalValue(n / 10);
      assert r[..|r| - 1] == Decimal(n / 10);
    } else {
      assert r[..0] == [];
    }
  }

  /** Distinct ids have distinct decimal spellings, so a username names at most one
      Discord user. */
  lemma DecimalInjective(m: nat, n: nat)
    requires Decimal(m) == Decimal(n)
    ensures m == n
  {
    DecimalValue(m);
    DecimalValue(n);
  }

  /** `clear_queue` suspends a server when it is running and its id is neither 1
      nor 3. */
  predicate Selectable(s: PanelServer)
  {
    !s.suspended && s.id != 1 && s.id != 3
  }

  /** Ids of the servers `clear_queue` sends a suspend to, in list order. */
  function SelectedIds(servers: seq<PanelServer>): seq<int>
  {
    if |servers| == 0 then []
    else
      var last := servers[|servers| - 1];
      SelectedIds(servers[..|servers| - 1]) + (if Selectable(last) then [last.id] else [])
  }

  /** Number of those suspends answered with 204; `replies[i]` is the status the
      panel answers a suspend of `servers[i]` with. */
  function StoppedCount(servers: seq<PanelServer>, replies: seq<int>): nat
    requires |replies| == |servers|
  {
    if |servers| == 0 then 0
    else
      var n := |servers| - 1;
      StoppedCount(servers[..n], replies[..n]) + (if Selectable(servers[n]) && replies[n] == NoContent then 1 else 0)
  }

  /** An id is suspended by the sweep exactly when some running server with that id,
      other than 1 and 3, is in the list. */
  lemma {:induction false} SelectedIdsExact(servers: seq<PanelServer>, x: int)
    ensures x in SelectedIds(servers) <==>
      exists i :: 0 <= i < |servers| && servers[i].id == x && Selectable(servers[i])
  {
    if |servers| > 0 {
      var n := |servers| - 1;
      var init := servers[..n];
      SelectedIdsExact(init, x);
      if x in SelectedIds(servers) && x !in SelectedIds(init) {
        assert servers[n].id == x && Selectable(servers[n]);
      }
      if exists i :: 0 <= i < |servers| && servers[i].id == x && Selectable(servers[i]) {
        var i :| 0 <= i < |servers| && servers[i].id == x && Selectable(servers[i]);
        if i < n {
          assert init[i] == servers[i];
        }
      }
    }
  }

  /** The reserved servers 1 and 3 are never suspended by the sweep. */
  lemma ReservedServersKept(servers: seq<PanelServer>)
    ensures 1 !in SelectedIds(servers) && 3 !in SelectedIds(servers)
  {
    SelectedIdsExact(servers, 1);
    SelectedIdsExact(servers, 3);
  }

  /** The count reported is at most the number of suspends issued. */
  lemma {:induction false} StoppedAtMostSelected(servers: seq<PanelServer>, replies: seq<int>)
    requires |replies| == |servers|
    ensures StoppedCount(servers, replies) <= |SelectedIds(servers)|
  {
    if |servers| > 0 {
      var n := |servers| - 1;
      StoppedAtMostSelected(servers[..n], replies[..n]);
    }
  }

  /** When every suspend succeeds, the count is the number of suspends issued. */
  lemma {:induction false} StoppedAllWhenAllSucceed(servers: seq<PanelServer>, replies: seq<int>)
    requires |replies| == |servers|
    requires forall i :: 0 <= i < |replies| ==> replies[i] == NoContent
    ensures StoppedCount(servers, replies) == |SelectedIds(servers)|
  {
    if |servers| > 0 {
      var n := |servers| - 1;
      StoppedAllWhenAllSucceed(servers[..n], replies[..n]);
    }
  }

  /** `clear_queue()`: walks the cached server list, suspends each selectable server
      and counts the suspends answered with 204. Returns that count and the ids
      suspended, in order. */
  method ClearQueue(servers: seq<PanelServer>, replies: seq<int>) returns (count: nat, suspended: seq<int>)
    requires |replies| == |servers|
    ensures suspended == SelectedIds(servers)
    ensures count == StoppedCount(servers, replies)
  {
    count := 0;
    suspended := [];
    for i := 0 to |servers|
      invariant suspended == SelectedIds(servers[..i])
      invariant count == StoppedCount(servers[..i], replies[..i])
    {
      assert servers[..i + 1][..i] == servers[..i];
      assert replies[..i + 1][..i] == replies[..i];
      var server := servers[i];
      if !server.suspended {
        if server.id != 1 && server.id != 3 {
          suspended := suspended + [server.id];
          var status := replies[i];
          if status == NoContent {
            count := count + 1;
          }
        }
      }
    }
    assert servers[..|servers|] == servers;
    assert replies[..|replies|] == replies;
  }
}
