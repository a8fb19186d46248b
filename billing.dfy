/** The per-session billing loop, `credit_reduction`. After one grace tick it debits
    one credit per tick while the balance is positive; after each tick it looks at
    the stop flag and, when the flag is set, clears it and leaves the loop. Sleeps
    are tick boundaries: tick 0 is the grace sleep, tick k (k >= 1) the sleep of the
    k-th debit. The `stop` command issued during a tick is the environment's input
    `stops`: `stops[t]` says that a stop request arrived during tick t. */
module Billing {
  import opened Ledger

  /** Direct messages the loop sends the user. */
  datatype Notice = RunningOut | StoppingSoon | Stopped

  /** Outcome of one run of the loop: the final balance and stop flag of the row,
      the number of ticks slept, and the notices sent in order. */
  datatype Session = Session(credits: int, stop: bool, ticks: nat, notices: seq<Notice>)

  /** A stop request arrived during tick t. */
  function StopAt(stops: seq<bool>, t: nat): bool
  {
    t < |stops| && stops[t]
  }

  /** The stop flag at the end of tick t, for a flag that was `s0` when the loop was
      entered and that nobody clears. */
  function FlagAfter(s0: bool, stops: seq<bool>, t: nat): bool
  {
    if t == 0 then s0 || StopAt(stops, 0) else FlagAfter(s0, stops, t - 1) || StopAt(stops, t)
  }

  /** The loop from the head of the iteration whose sleep is tick k, with balance
      `credits` and stop flag `stop`. */
  function Loop(credits: int, stop: bool, stops: seq<bool>, k: nat): Session
    decreases if credits > 0 then credits else 0
  {
    if credits <= 0 then Session(credits, stop, k, [Stopped])
    else
      var left := credits - 1;
      var warned := (if left == 0 && !stop then [RunningOut] else [])
                    + (if stop then [StoppingSoon] else []);
      var raised := stop || StopAt(stops, k);
      if raised then Session(left, false, k + 1, warned + [Stopped])
      else
        var rest := Loop(left, raised, stops, k + 1);
        rest.(notices := warned + rest.notices)
  }

  /** The whole of `credit_reduction` for a row holding `credits` and stop flag `stop`. */
  function CreditSession(credits: int, stop: bool, stops: seq<bool>): Session
  {
    Loop(credits, stop || StopAt(stops, 0), stops, 1)
  }

  /** A raised stop flag stays raised. */
  lemma {:induction false} FlagMonotone(s0: bool, stops: seq<bool>, t: nat, u: nat)
    requires t <= u
    ensures FlagAfter(s0, stops, t) ==> FlagAfter(s0, stops, u)
    decreases u
  {
    if t < u {
      FlagMonotone(s0, stops, t, u - 1);
    }
  }

  /** Everything the loop does from iteration k on, when it is entered with a
      positive balance and the flag as the ticks so far left it. */
  lemma {:induction false} LoopFacts(c: int, s: bool, s0: bool, stops: seq<bool>, k: nat)
    requires c > 0 && k >= 1
    requires s == FlagAfter(s0, stops, k - 1)
    requires k >= 2 ==> !s
    ensures var r := Loop(c, s, stops, k);
      && k + 1 <= r.ticks <= k + c
      && r.credits == c - (r.ticks - k)
      && !r.stop
      && (forall t :: k <= t < r.ticks - 1 ==> !FlagAfter(s0, stops, t))
      && (FlagAfter(s0, stops, r.ticks - 1) || r.credits == 0)
      && r.notices == (if r.credits == 0 && !FlagAfter(s0, stops, r.ticks - 2) then [RunningOut] else [])
                      + (if k == 1 && s then [StoppingSoon] else []) + [Stopped]
    decreases c
  {
    var raised := s || StopAt(stops, k);
    assert FlagAfter(s0, stops, k) == raised;
    if !raised && c > 1 {
      LoopFacts(c - 1, false, s0, stops, k + 1);
    }
  }

  /** One credit per tick after the grace tick, and the balance never drops below 0. */
  lemma BillingDebitsOnePerTick(c0: int, s0: bool, stops: seq<bool>)
    requires c0 >= 0
    ensures var r := CreditSession(c0, s0, stops);
      && 0 <= r.credits <= c0
      && r.credits == c0 - (r.ticks - 1)
      && r.ticks <= c0 + 1
  {
    if c0 > 0 {
      LoopFacts(c0, s0 || StopAt(stops, 0), s0, stops, 1);
    }
  }

  /** Why the loop ends: a stop request seen after the last tick, or an empty balance;
      no earlier tick saw a request, the loop ran at least one debit, and the stop
      flag is left cleared. */
  lemma BillingExit(c0: int, s0: bool, stops: seq<bool>)
    requires c0 > 0
    ensures var r := CreditSession(c0, s0, stops);
      && r.ticks >= 2
      && !r.stop
      && (forall t :: 1 <= t < r.ticks - 1 ==> !FlagAfter(s0, stops, t))
      && (FlagAfter(s0, stops, r.ticks - 1) || r.credits == 0)
  {
    LoopFacts(c0, s0 || StopAt(stops, 0), s0, stops, 1);
  }

  /** The "running out" notice is sent exactly when the last debit emptied the
      balance with no stop requested before that tick; the "will stop" notice only
      when a request came before the first debit; "stopped" always comes last. */
  lemma BillingNotices(c0: int, s0: bool, stops: seq<bool>)
    requires c0 > 0
    ensures var r := CreditSession(c0, s0, stops);
      && r.ticks >= 2
      && r.notices == (if r.credits == 0 && !FlagAfter(s0, stops, r.ticks - 2) then [RunningOut] else [])
                   + (if FlagAfter(s0, stops, 0) then [StoppingSoon] else []) + [Stopped]
  {
    LoopFacts(c0, s0 || StopAt(stops, 0), s0, stops, 1);
  }

  /** A stop requested by the end of tick t ends the session by tick max(t, 1) + 1:
      one more debit tick at most. */
  lemma BillingStopHonoured(c0: int, s0: bool, stops: seq<bool>, t: nat)
    requires c0 > 0
    requires FlagAfter(s0, stops, t)
    ensures CreditSession(c0, s0, stops).ticks <= (if t < 1 then 1 else t) + 1
  {
    BillingExit(c0, s0, stops);
    FlagMonotone(s0, stops, t, if t < 1 then 1 else t);
  }

  /** With no stop requested before the tick of the last debit, the session uses up
      the whole balance: c0 debits, c0 + 1 ticks, then the two closing notices. */
  lemma BillingRunsDown(c0: int, s0: bool, stops: seq<bool>)
    requires c0 > 0
    requires !FlagAfter(s0, stops, c0 - 1)
    ensures CreditSession(c0, s0, stops) == Session(0, false, c0 + 1, [RunningOut, Stopped])
  {
    var r := CreditSession(c0, s0, stops);
    BillingDebitsOnePerTick(c0, s0, stops);
    BillingExit(c0, s0, stops);
    BillingNotices(c0, s0, stops);
    if r.ticks - 1 < c0 {
      FlagMonotone(s0, stops, r.ticks - 1, c0 - 1);
    }
    FlagMonotone(s0, stops, 0, c0 - 1);
    FlagMonotone(s0, stops, r.ticks - 2, c0 - 1);
  }

  /** A session started with 5 credits and never stopped: one grace tick, five debit
      ticks, then the resource is suspended. */
  lemma FiveCreditSession()
    ensures CreditSession(5, false, []) == Session(0, false, 6, [RunningOut, Stopped])
  {
    NeverRequested(4);
    BillingRunsDown(5, false, []);
  }

  /** With no request ever and a clear flag, the flag stays clear. */
  lemma {:induction false} NeverRequested(t: nat)
    ensures !FlagAfter(false, [], t)
  {
    if t > 0 {
      NeverRequested(t - 1);
    }
  }

  /** A stop requested during the grace tick: one debit, then the session ends. */
  lemma StopDuringGrace(c0: int)
    requires c0 > 1
    ensures CreditSession(c0, false, [true]) == Session(c0 - 1, false, 2, [StoppingSoon, Stopped])
  {
  }

  /** `credit_reduction(person, server, ctx)`: runs the loop against `person`'s row
      and returns the status of the final suspend call, `suspendStatus`. The row must
      have existed when `person` was constructed, as it does for the only caller;
      otherwise every debit is a failed insert and the loop would never end. */
  method CreditReduction(person: Person, stops: seq<bool>, suspendStatus: int) returns (status: int, run: Session)
    requires person.Valid() && person.existed
    modifies person.db
    ensures person.Valid()
    ensures status == suspendStatus
    ensures run == CreditSession(old(person.GetCredits()), old(person.StopServer()), stops)
    ensures person.db.rows == old(person.db.rows)[person.userId :=
      old(person.db.rows[person.userId]).(credits := run.credits, stopServer := run.stop)]
  {
    ghost var rows0, row0 := person.db.rows, person.db.rows[person.userId];
    // grace sleep: tick 0
    if StopAt(stops, 0) {
      var _ := person.SetStopServer(true);
    }
    ghost var graced := row0.(stopServer := row0.stopServer || StopAt(stops, 0));
    assert person.db.rows == rows0[person.userId := graced];
    run := DebitLoop(person, stops);
    Overwrite(rows0, person.userId, graced, graced.(credits := run.credits, stopServer := run.stop));
    status := suspendStatus;
  }

  /** The `while` loop of `credit_reduction`, entered right after the grace tick. */
  method DebitLoop(person: Person, stops: seq<bool>) returns (run: Session)
    requires person.Valid() && person.existed
    modifies person.db
    ensures person.Valid()
    ensures run == Loop(old(person.GetCredits()), old(person.StopServer()), stops, 1)
    ensures person.db.rows == old(person.db.rows)[person.userId :=
      old(person.db.rows[person.userId]).(credits := run.credits, stopServer := run.stop)]
  {
    ghost var rows0, row0 := person.db.rows, person.db.rows[person.userId];
    ghost var expected := Loop(row0.credits, row0.stopServer, stops, 1);
    ghost var credits, flag := row0.credits, row0.stopServer;
    var k: nat := 1;
    var sent: seq<Notice> := [];
    while person.GetCredits() > 0
      invariant person.Valid() && person.userId in person.db.rows
      invariant person.db.rows == rows0[person.userId := row0.(credits := credits, stopServer := flag)]
      invariant expected == Prefixed(sent, Loop(credits, flag, stops, k))
      decreases credits
    {
      LoopStep(sent, credits, flag, stops, k);
      var warned, leave := DebitTick(person, stops, k, credits, flag);
      Overwrite(rows0, person.userId, row0.(credits := credits, stopServer := flag),
                row0.(credits := credits - 1, stopServer := false));
      sent := sent + warned;
      credits, flag, k := credits - 1, false, k + 1;
      if leave {
        break;
      }
    }
    run := Session(person.GetCredits(), person.StopServer(), k, sent + [Stopped]);
  }

  /** One iteration of the loop body: debit one credit, send the notices the new
      balance and the flag call for, sleep through tick k (during which a stop may
      be requested), and leave when the flag is then set, clearing it. Either way the
      flag is clear afterwards. */
  method DebitTick(person: Person, stops: seq<bool>, k: nat, ghost credits: int, ghost flag: bool)
    returns (warned: seq<Notice>, leave: bool)
    requires person.Valid() && person.existed
    requires person.userId in person.db.rows
    requires person.db.rows[person.userId].credits == credits > 0
    requires person.db.rows[person.userId].stopServer == flag
    modifies person.db
    ensures person.Valid()
    ensures warned == (if credits - 1 == 0 && !flag then [RunningOut] else []) + (if flag then [StoppingSoon] else [])
    ensures leave == (flag || StopAt(stops, k))
    ensures person.db.rows == old(person.db.rows)[person.userId :=
      old(person.db.rows[person.userId]).(credits := credits - 1, stopServer := false)]
  {
    ghost var rows0, row0 := person.db.rows, person.db.rows[person.userId];
    var _ := person.UpdateCredits(-1);
    warned := [];
    if person.GetCredits() == 0 && !person.StopServer() {
      warned := warned + [RunningOut];
    }
    if person.StopServer() {
      warned := warned + [StoppingSoon];
    }
    // sleep: tick k
    if StopAt(stops, k) {
      var _ := person.SetStopServer(true);
      Overwrite(rows0, person.userId, row0.(credits := credits - 1), row0.(credits := credits - 1, stopServer := true));
    }
    leave := person.StopServer();
    ghost var mid := row0.(credits := credits - 1, stopServer := leave);
    assert person.db.rows == rows0[person.userId := mid];
    if leave {
      var _ := person.SetStopServer(false);
      Overwrite(rows0, person.userId, mid, mid.(stopServer := false));
    }
  }

  /** One iteration of the loop, seen from the notices already sent. */
  lemma LoopStep(sent: seq<Notice>, c: int, s: bool, stops: seq<bool>, k: nat)
    requires c > 0
    ensures var warned := (if c - 1 == 0 && !s then [RunningOut] else []) + (if s then [StoppingSoon] else []);
      Prefixed(sent, Loop(c, s, stops, k)) ==
        if s || StopAt(stops, k) then Session(c - 1, false, k + 1, sent + warned + [Stopped])
        else Prefixed(sent + warned, Loop(c - 1, false, stops, k + 1))
  {
    var warned := (if c - 1 == 0 && !s then [RunningOut] else []) + (if s then [StoppingSoon] else []);
    assert sent + (warned + [Stopped]) == sent + warned + [Stopped];
    var rest := Loop(c - 1, false, stops, k + 1);
    assert sent + (warned + rest.notices) == (sent + warned) + rest.notices;
  }

  /** `r` with `sent` placed before its notices. */
  function Prefixed(sent: seq<Notice>, r: Session): Session
  {
    r.(notices := sent + r.notices)
  }
}
