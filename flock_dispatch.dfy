/**
 * The dedup and delivery body of the dispatcher loop: each candidate ticket is
 * delivered at most once, at most one ticket per plate per day, and only a
 * successful write records anything.
 */
module FlockDispatch {
  import opened Bytes
  import opened FlockWire
  import opened FlockSession

  /** The day a timestamp falls on. */
  function Day(ts: u32): nat
  {
    ts / 86400
  }

  /** The (plate, day) marks of a ticket: the days of both of its timestamps. */
  function Days(t: Ticket): set<(Plate, nat)>
  {
    {(t.plate, Day(t.timestamp1)), (t.plate, Day(t.timestamp2))}
  }

  /** The dispatcher thread's two sets, `tickets` and `issued_days`, as a value. */
  datatype Ledger = Ledger(tickets: set<Ticket>, issuedDays: set<(Plate, nat)>)

  function MarkedDays(tickets: set<Ticket>): set<(Plate, nat)>
  {
    set t, pd | t in tickets && pd in Days(t) :: pd
  }

  /**
   * What the dispatcher keeps true: `issued_days` holds exactly the days of
   * the issued tickets, and two different tickets for a plate never share a day.
   */
  ghost predicate Consistent(l: Ledger)
  {
    && l.issuedDays == MarkedDays(l.tickets)
    && forall t1, t2 :: t1 in l.tickets && t2 in l.tickets && t1 != t2 && t1.plate == t2.plate ==> Days(t1) !! Days(t2)
  }

  /** The candidate is neither issued nor on a day already ticketed for its plate. */
  predicate Admits(l: Ledger, t: Ticket)
  {
    t !in l.tickets && (t.plate, Day(t.timestamp1)) !in l.issuedDays && (t.plate, Day(t.timestamp2)) !in l.issuedDays
  }

  /** Some connected dispatcher is responsible for the road. */
  predicate IsDispatcherFor(registry: map<ClientId, ClientInfo>, id: ClientId, road: u16)
  {
    id in registry && registry[id].Dispatcher? && road in registry[id].roads
  }

  predicate HasDispatcher(registry: map<ClientId, ClientInfo>, road: u16)
  {
    exists id :: id in registry && IsDispatcherFor(registry, id, road)
  }

  /** The candidate is admitted, a dispatcher is found and the write succeeds. */
  predicate Delivers(l: Ledger, registry: map<ClientId, ClientInfo>, t: Ticket, writeOk: bool)
  {
    Admits(l, t) && HasDispatcher(registry, t.road) && writeOk
  }

  /** One candidate: a delivery records the ticket and marks both days; anything else changes nothing. */
  function Step(l: Ledger, registry: map<ClientId, ClientInfo>, t: Ticket, writeOk: bool): Ledger
  {
    if Delivers(l, registry, t, writeOk) then Ledger(l.tickets + {t}, l.issuedDays + Days(t)) else l
  }

  /** The ledger after processing `candidates` in order; `writeOk(k)` says whether the write of candidate `k` succeeds. */
  function Run(l: Ledger, registry: map<ClientId, ClientInfo>, candidates: seq<Ticket>, writeOk: nat -> bool): Ledger
  {
    if candidates == [] then l
    else
      var n := |candidates| - 1;
      Step(Run(l, registry, candidates[..n], writeOk), registry, candidates[n], writeOk(n))
  }

  /** The tickets delivered while processing `candidates`, in order. */
  function Delivered(l: Ledger, registry: map<ClientId, ClientInfo>, candidates: seq<Ticket>, writeOk: nat -> bool): seq<Ticket>
  {
    if candidates == [] then []
    else
      var n := |candidates| - 1;
      var front := candidates[..n];
      Delivered(l, registry, front, writeOk)
        + (if Delivers(Run(l, registry, front, writeOk), registry, candidates[n], writeOk(n)) then [candidates[n]] else [])
  }

  lemma MarkedDaysAdd(tickets: set<Ticket>, t: Ticket)
    ensures MarkedDays(tickets + {t}) == MarkedDays(tickets) + Days(t)
  {
    forall pd | pd in MarkedDays(tickets + {t}) ensures pd in MarkedDays(tickets) + Days(t) {
      var u :| u in tickets + {t} && pd in Days(u);
    }
  }

  /** A step keeps the ledger consistent. */
  lemma StepConsistent(l: Ledger, registry: map<ClientId, ClientInfo>, t: Ticket, writeOk: bool)
    requires Consistent(l)
    ensures Consistent(Step(l, registry, t, writeOk))
  {
    if Delivers(l, registry, t, writeOk) {
      MarkedDaysAdd(l.tickets, t);
      var r := Step(l, registry, t, writeOk);
      forall t1, t2 | t1 in r.tickets && t2 in r.tickets && t1 != t2 && t1.plate == t2.plate
        ensures Days(t1) !! Days(t2)
      {
        if t1 == t {
          assert Days(t2) <= MarkedDays(l.tickets);
        } else if t2 == t {
          assert Days(t1) <= MarkedDays(l.tickets);
        }
      }
    }
  }

  /** Processing any candidates from a consistent ledger leaves it consistent. */
  lemma {:induction false} RunConsistent(l: Ledger, registry: map<ClientId, ClientInfo>, candidates: seq<Ticket>, writeOk: nat -> bool)
    requires Consistent(l)
    ensures Consistent(Run(l, registry, candidates, writeOk))
  {
    if candidates != [] {
      var n := |candidates| - 1;
      RunConsistent(l, registry, candidates[..n], writeOk);
      StepConsistent(Run(l, registry, candidates[..n], writeOk), registry, candidates[n], writeOk(n));
    }
  }

  /** The sets only grow: the ledger after a prefix is contained in the ledger after the whole. */
  lemma {:induction false} RunGrows(l: Ledger, registry: map<ClientId, ClientInfo>, candidates: seq<Ticket>, writeOk: nat -> bool, k: nat)
    requires k <= |candidates|
    ensures Run(l, registry, candidates[..k], writeOk).tickets <= Run(l, registry, candidates, writeOk).tickets
    ensures Run(l, registry, candidates[..k], writeOk).issuedDays <= Run(l, registry, candidates, writeOk).issuedDays
  {
    if k == |candidates| {
      assert candidates[..k] == candidates;
    } else {
      var n := |candidates| - 1;
      RunGrows(l, registry, candidates[..n], writeOk, k);
      assert candidates[..n][..k] == candidates[..k];
    }
  }

  /**
   * Every delivered ticket is new and is recorded, and no ticket is
   * delivered twice.
   */
  lemma {:induction false} DeliveredRecorded(l: Ledger, registry: map<ClientId, ClientInfo>, candidates: seq<Ticket>, writeOk: nat -> bool)
    ensures var d := Delivered(l, registry, candidates, writeOk);
      && (forall i :: 0 <= i < |d| ==> d[i] !in l.tickets && d[i] in Run(l, registry, candidates, writeOk).tickets)
      && (forall i, j :: 0 <= i < j < |d| ==> d[i] != d[j])
      && forall t :: t in Run(l, registry, candidates, writeOk).tickets <==> t in l.tickets || t in d
  {
    if candidates != [] {
      var n := |candidates| - 1;
      var front := candidates[..n];
      DeliveredRecorded(l, registry, front, writeOk);
      var d0 := Delivered(l, registry, front, writeOk);
      var d := Delivered(l, registry, candidates, writeOk);
      var r0 := Run(l, registry, front, writeOk);
      if Delivers(r0, registry, candidates[n], writeOk(n)) {
        assert d == d0 + [candidates[n]];
      } else {
        assert d == d0;
      }
    }
  }

  /**
   * No two tickets delivered for the same plate, nor one delivered and one
   * issued before, share a day.
   */
  lemma DeliveredDayDisjoint(l: Ledger, registry: map<ClientId, ClientInfo>, candidates: seq<Ticket>, writeOk: nat -> bool, t1: Ticket, t2: Ticket)
    requires Consistent(l)
    requires t1 in Delivered(l, registry, candidates, writeOk)
    requires t2 in Delivered(l, registry, candidates, writeOk) || t2 in l.tickets
    requires t1 != t2 && t1.plate == t2.plate
    ensures Days(t1) !! Days(t2)
  {
    DeliveredRecorded(l, registry, candidates, writeOk);
    RunConsistent(l, registry, candidates, writeOk);
    var r := Run(l, registry, candidates, writeOk);
    assert t1 in r.tickets && t2 in r.tickets;
  }

  /** Running the same candidates again, with the same registry and write outcomes, changes nothing. */
  lemma RunIdempotent(l: Ledger, registry: map<ClientId, ClientInfo>, candidates: seq<Ticket>, writeOk: nat -> bool)
    ensures Run(Run(l, registry, candidates, writeOk), registry, candidates, writeOk) == Run(l, registry, candidates, writeOk)
    ensures Delivered(Run(l, registry, candidates, writeOk), registry, candidates, writeOk) == []
  {
    RunFixed(l, registry, candidates, writeOk, |candidates|);
    assert candidates[..|candidates|] == candidates;
  }

  lemma {:induction false} RunFixed(l: Ledger, registry: map<ClientId, ClientInfo>, candidates: seq<Ticket>, writeOk: nat -> bool, k: nat)
    requires k <= |candidates|
    ensures var done := Run(l, registry, candidates, writeOk);
      Run(done, registry, candidates[..k], writeOk) == done && Delivered(done, registry, candidates[..k], writeOk) == []
  {
    var done := Run(l, registry, candidates, writeOk);
    if k > 0 {
      var t := candidates[k - 1];
      RunFixed(l, registry, candidates, writeOk, k - 1);
      assert candidates[..k][..k - 1] == candidates[..k - 1];
      RunGrows(l, registry, candidates, writeOk, k - 1);
      RunGrows(l, registry, candidates, writeOk, k);
      assert !Delivers(done, registry, t, writeOk(k - 1));
    }
  }

  /** Processing one more candidate is one more `Step`, delivering that candidate or nothing. */
  lemma RunSnoc(l: Ledger, registry: map<ClientId, ClientInfo>, candidates: seq<Ticket>, writeOk: nat -> bool, k: nat)
    requires k < |candidates|
    ensures var r := Run(l, registry, candidates[..k], writeOk);
      && Run(l, registry, candidates[..k + 1], writeOk) == Step(r, registry, candidates[k], writeOk(k))
      && Delivered(l, registry, candidates[..k + 1], writeOk)
         == Delivered(l, registry, candidates[..k], writeOk)
            + (if Delivers(r, registry, candidates[k], writeOk(k)) then [candidates[k]] else [])
  {
    assert candidates[..k + 1][..k] == candidates[..k];
  }

  /** The dispatcher thread's `tickets` and `issued_days`. */
  class TicketLedger {
    var tickets: set<Ticket>
    var issuedDays: set<(Plate, nat)>

    function Snapshot(): Ledger
      reads this
    {
      Ledger(tickets, issuedDays)
    }

    ghost predicate Valid()
      reads this
    {
      Consistent(Snapshot())
    }

    constructor()
      ensures Valid() && tickets == {} && issuedDays == {}
    {
      tickets, issuedDays := {}, {};
    }

    /**
     * One pass of the dispatcher over the candidates of `check_traffic_log`.
     * `registry` is the state read under the lock and `writeOk(k)` is whether
     * writing candidate `k` to the dispatcher's stream succeeds. `sent` lists
     * the dispatcher each delivered ticket went to.
     */
    method Deliver(registry: map<ClientId, ClientInfo>, candidates: seq<Ticket>, writeOk: nat -> bool)
      returns (sent: seq<(ClientId, Ticket)>)
      requires Valid()
      modifies this
      ensures Valid()
      ensures Snapshot() == Run(old(Snapshot()), registry, candidates, writeOk)
      ensures |sent| == |Delivered(old(Snapshot()), registry, candidates, writeOk)|
      ensures forall k :: 0 <= k < |sent| ==>
        sent[k].1 == Delivered(old(Snapshot()), registry, candidates, writeOk)[k]
        && IsDispatcherFor(registry, sent[k].0, sent[k].1.road)
    {
      ghost var start := Snapshot();
      sent := [];
      for k := 0 to |candidates|
        invariant Snapshot() == Run(start, registry, candidates[..k], writeOk)
        invariant |sent| == |Delivered(start, registry, candidates[..k], writeOk)|
        invariant forall i :: 0 <= i < |sent| ==>
          sent[i].1 == Delivered(start, registry, candidates[..k], writeOk)[i]
          && IsDispatcherFor(registry, sent[i].0, sent[i].1.road)
      {
        var t := candidates[k];
        RunSnoc(start, registry, candidates, writeOk, k);
        if t in tickets {
          continue;
        }
        var day1, day2 := t.timestamp1 / 86400, t.timestamp2 / 86400;
        if (t.plate, day1) in issuedDays || (t.plate, day2) in issuedDays {
          continue;
        }
        if exists id :: id in registry && registry[id].Dispatcher? && t.road in registry[id].roads {
          var id :| id in registry && registry[id].Dispatcher? && t.road in registry[id].roads;
          if writeOk(k) {
            tickets := tickets + {t};
            issuedDays := issuedDays + {(t.plate, day1)};
            issuedDays := issuedDays + {(t.plate, day2)};
            sent := sent + [(id, t)];
          }
        }
      }
      assert candidates[..|candidates|] == candidates;
      RunConsistent(start, registry, candidates, writeOk);
    }
  }
}
