/**
 * The chat server's logic: the name check at sign-in, the filter on incoming
 * lines, and the broker that assigns ids and decides who receives which text.
 */
module Chat {
  import opened Wrappers
  import opened Seqs
  import opened Text

  const BAD_NAME := "Name cannot be empty, and must be alphanumeric"
  const JUST_YOU := "...just you it seems..."

  /** The name check of `handle_invite`: the trimmed line, if it is non-empty and alphanumeric. */
  function CheckName(line: string): (r: Result<string, string>)
    ensures r.Ok? <==> Trim(line) != [] && AllAlphanumeric(Trim(line))
    ensures r.Ok? ==> r.value == Trim(line)
    ensures r.Err? ==> r.error == BAD_NAME
  {
    var name := Trim(line);
    if name == [] || !AllAlphanumeric(name) then Err(BAD_NAME) else Ok(name)
  }

  /** An accepted name is accepted again unchanged, with or without the line ending. */
  lemma CheckNameAccepts(name: string)
    requires name != [] && AllAlphanumeric(name)
    ensures CheckName(name) == Ok(name)
    ensures CheckName(name + "\n") == Ok(name)
  {
    assert !IsWhitespace(name[|name| - 1]) && !IsWhitespace(name[0]);
    TrimOfTrimmed(name);
  }

  /** The reader thread forwards the trimmed line, and nothing for a blank line. */
  function ForwardedLine(line: string): (r: Option<string>)
    ensures r.None? <==> Trim(line) == []
    ensures r.Some? ==> r.value == Trim(line)
  {
    var content := Trim(line);
    if content == [] then None else Some(content)
  }

  /** A forwarded message is never empty and has no whitespace at either end. */
  lemma ForwardedTrimmed(line: string)
    requires ForwardedLine(line).Some?
    ensures var c := ForwardedLine(line).value;
      c != [] && !IsWhitespace(c[0]) && !IsWhitespace(c[|c| - 1])
  {
  }

  /** The "The room contains" text for the names already present. */
  function Members(names: seq<string>): string
  {
    if names == [] then JUST_YOU else Join(names, ", ")
  }

  /** The broker's state: the connected clients by id and the next id. */
  datatype BrokerState = BrokerState(clients: map<nat, string>, idCounter: nat)

  /** Ids are below the counter, so the next id is unused. */
  predicate Fresh(s: BrokerState)
  {
    forall id :: id in s.clients ==> id < s.idCounter
  }

  datatype Event = JoinEvent(name: string) | MessageEvent(clientId: nat, content: string) | LeaveEvent(id: nat)

  /** The broker accepts a Leave only for a connected id (`unwrap`). */
  predicate Accepts(s: BrokerState, e: Event)
  {
    e.LeaveEvent? ==> e.id in s.clients
  }

  /** The state after an event. */
  function Next(s: BrokerState, e: Event): BrokerState
    requires Accepts(s, e)
  {
    match e
    case JoinEvent(name) => BrokerState(s.clients[s.idCounter := name], s.idCounter + 1)
    case MessageEvent(_, _) => s
    case LeaveEvent(id) => BrokerState(s.clients - {id}, s.idCounter)
  }

  /** Who receives the event's broadcast text. */
  function Recipients(s: BrokerState, e: Event): set<nat>
    requires Accepts(s, e)
  {
    match e
    case JoinEvent(_) => s.clients.Keys - {s.idCounter}
    case MessageEvent(id, _) => if id in s.clients then s.clients.Keys - {id} else {}
    case LeaveEvent(id) => s.clients.Keys - {id}
  }

  /** The broadcast text of an event. */
  function Broadcast(s: BrokerState, e: Event): string
    requires Accepts(s, e)
  {
    match e
    case JoinEvent(name) => "* " + name + " has entered the room"
    case MessageEvent(id, content) => if id in s.clients then "[" + s.clients[id] + "] " + content else ""
    case LeaveEvent(id) => "* " + s.clients[id] + " has left the room"
  }

  /** Every event keeps the counter above every id. */
  lemma NextFresh(s: BrokerState, e: Event)
    requires Fresh(s) && Accepts(s, e)
    ensures Fresh(Next(s, e)) && Next(s, e).idCounter >= s.idCounter
    ensures e.JoinEvent? ==> s.idCounter !in s.clients && Next(s, e).clients.Keys == s.clients.Keys + {s.idCounter}
    ensures e.JoinEvent? ==> Recipients(s, e) == s.clients.Keys
    ensures e.LeaveEvent? ==> (Next(s, e).clients.Keys == s.clients.Keys - {e.id}
      && Recipients(s, e) == Next(s, e).clients.Keys)
    ensures e.MessageEvent? ==> Next(s, e) == s && e.clientId !in Recipients(s, e)
  {
  }

  predicate AcceptsAll(s: BrokerState, events: seq<Event>)
    decreases |events|
  {
    events == [] || (Accepts(s, events[0]) && AcceptsAll(Next(s, events[0]), events[1..]))
  }

  /** The ids handed out to the joins among `events`, in order. */
  function JoinIds(s: BrokerState, events: seq<Event>): seq<nat>
    requires AcceptsAll(s, events)
    decreases |events|
  {
    if events == [] then []
    else (if events[0].JoinEvent? then [s.idCounter] else []) + JoinIds(Next(s, events[0]), events[1..])
  }

  predicate AllAtLeast(ids: seq<nat>, c: nat)
  {
    forall i :: 0 <= i < |ids| ==> c <= ids[i]
  }

  predicate Increasing(ids: seq<nat>)
  {
    forall i, j :: 0 <= i < j < |ids| ==> ids[i] < ids[j]
  }

  /** Ids start at the counter and strictly increase, so none is ever reused, and none was in use. */
  lemma {:induction false} JoinIdsIncrease(s: BrokerState, events: seq<Event>)
    requires Fresh(s) && AcceptsAll(s, events)
    ensures AllAtLeast(JoinIds(s, events), s.idCounter) && Increasing(JoinIds(s, events))
    ensures forall id :: id in JoinIds(s, events) ==> id !in s.clients
    decreases |events|
  {
    if events != [] {
      var n := Next(s, events[0]);
      NextFresh(s, events[0]);
      JoinIdsIncrease(n, events[1..]);
      var rest := JoinIds(n, events[1..]);
      var ids := JoinIds(s, events);
      if events[0].JoinEvent? {
        assert ids == [s.idCounter] + rest;
        assert n.idCounter == s.idCounter + 1;
      } else {
        assert ids == rest;
      }
      assert AllAtLeast(ids, s.idCounter);
    }
  }

  /** One enumeration of a hash map's keys: each exactly once, in some order. */
  method Enumerate(keys: set<nat>) returns (order: seq<nat>)
    ensures Distinct(order) && forall k :: k in order <==> k in keys
  {
    order := [];
    var remaining := keys;
    while remaining != {}
      invariant remaining <= keys
      invariant Distinct(order)
      invariant forall k :: k in order <==> k in keys - remaining
      decreases remaining
    {
      var k :| k in remaining;
      DistinctSnoc(order, k);
      order := order + [k];
      remaining := remaining - {k};
    }
  }

  /** `text` addressed to each id of `order` except `skip`, in that order. */
  function Addressed(order: seq<nat>, skip: Option<nat>, text: string): seq<(nat, string)>
  {
    if order == [] then []
    else
      var last := order[|order| - 1];
      Addressed(order[..|order| - 1], skip, text) + (if skip == Some(last) then [] else [(last, text)])
  }

  /** Some delivery goes to `id`. */
  predicate SentTo(deliveries: seq<(nat, string)>, id: nat)
  {
    exists k :: 0 <= k < |deliveries| && deliveries[k].0 == id
  }

  /** Everybody listed once except `skip` gets the text, exactly once. */
  lemma {:induction false} AddressedEach(order: seq<nat>, skip: Option<nat>, text: string)
    requires Distinct(order)
    ensures var d := Addressed(order, skip, text);
      && (forall k :: 0 <= k < |d| ==> d[k].1 == text && d[k].0 in order)
      && (forall id :: SentTo(d, id) <==> id in order && skip != Some(id))
      && (forall i, j :: 0 <= i < j < |d| ==> d[i].0 != d[j].0)
  {
    if order != [] {
      var front := order[..|order| - 1];
      var last := order[|order| - 1];
      AddressedEach(front, skip, text);
      var d0 := Addressed(front, skip, text);
      var d := Addressed(order, skip, text);
      assert last !in front;
      assert forall x :: x in order <==> x in front || x == last;
      forall id ensures SentTo(d, id) <==> id in order && skip != Some(id) {
        if SentTo(d0, id) {
          var k :| 0 <= k < |d0| && d0[k].0 == id;
          assert d[k] == d0[k];
        }
        if id == last && skip != Some(id) {
          assert d[|d| - 1].0 == id;
        }
      }
    }
  }

  /** Sends `text` to every client in `clients` except `skip`, in hash-map order. */
  method SendToOthers(clients: map<nat, string>, skip: Option<nat>, text: string) returns (deliveries: seq<(nat, string)>)
    ensures forall k :: 0 <= k < |deliveries| ==> deliveries[k].1 == text
    ensures forall id :: SentTo(deliveries, id) <==> id in clients && skip != Some(id)
    ensures forall i, j :: 0 <= i < j < |deliveries| ==> deliveries[i].0 != deliveries[j].0
  {
    var order := Enumerate(clients.Keys);
    deliveries := [];
    for i := 0 to |order|
      invariant deliveries == Addressed(order[..i], skip, text)
    {
      assert order[..i + 1][..i] == order[..i];
      if skip != Some(order[i]) {
        deliveries := deliveries + [(order[i], text)];
      }
    }
    assert order[..|order|] == order;
    AddressedEach(order, skip, text);
  }

  /** The names of the listed clients, in order. */
  function NamesOf(clients: map<nat, string>, order: seq<nat>): (names: seq<string>)
    requires forall k :: k in order ==> k in clients
    ensures |names| == |order| && forall i :: 0 <= i < |order| ==> names[i] == clients[order[i]]
  {
    if order == [] then [] else NamesOf(clients, order[..|order| - 1]) + [clients[order[|order| - 1]]]
  }

  /** The names of the clients, in hash-map order. */
  method Names(clients: map<nat, string>) returns (names: seq<string>, order: seq<nat>)
    ensures Distinct(order) && (forall k :: k in order <==> k in clients)
    ensures names == NamesOf(clients, order)
  {
    order := Enumerate(clients.Keys);
    names := [];
    for i := 0 to |order|
      invariant names == NamesOf(clients, order[..i])
    {
      assert order[..i + 1][..i] == order[..i];
      names := names + [clients[order[i]]];
    }
    assert order[..|order|] == order;
  }

  /** The broker thread's `clients` and `id_counter`. */
  class Broker {
    var clients: map<nat, string>
    var idCounter: nat

    function State(): BrokerState
      reads this
    {
      BrokerState(clients, idCounter)
    }

    ghost predicate Valid()
      reads this
    {
      Fresh(State())
    }

    constructor()
      ensures Valid() && clients == map[] && idCounter == 0
    {
      clients, idCounter := map[], 0;
    }

    /**
     * A Join: the id handed back, the member list sent with the welcome, and
     * the announcement to everybody else.
     */
    method Join(name: string) returns (id: nat, members: string, deliveries: seq<(nat, string)>, ghost order: seq<nat>)
      requires Valid()
      modifies this
      ensures Valid() && State() == Next(old(State()), JoinEvent(name))
      ensures id == old(idCounter) && id !in old(clients)
      ensures Distinct(order) && (forall k :: k in order <==> k in old(clients))
      ensures members == Members(NamesOf(old(clients), order))
      ensures forall k :: 0 <= k < |deliveries| ==> deliveries[k].1 == Broadcast(old(State()), JoinEvent(name))
      ensures forall r :: SentTo(deliveries, r) <==> r in Recipients(old(State()), JoinEvent(name))
      ensures forall i, j :: 0 <= i < j < |deliveries| ==> deliveries[i].0 != deliveries[j].0
    {
      NextFresh(State(), JoinEvent(name));
      id := idCounter;
      idCounter := idCounter + 1;
      var names, keys := Names(clients);
      order := keys;
      members := if names == [] then JUST_YOU else Text.Join(names, ", ");
      clients := clients[id := name];
      deliveries := SendToOthers(clients, Some(id), "* " + name + " has entered the room");
    }

    /** A chat line from `clientId`, relayed to everybody else; nothing if the id is not connected. */
    method Message(clientId: nat, content: string) returns (deliveries: seq<(nat, string)>)
      ensures forall k :: 0 <= k < |deliveries| ==> deliveries[k].1 == Broadcast(State(), MessageEvent(clientId, content))
      ensures forall r :: SentTo(deliveries, r) <==> r in Recipients(State(), MessageEvent(clientId, content))
      ensures forall i, j :: 0 <= i < j < |deliveries| ==> deliveries[i].0 != deliveries[j].0
    {
      if clientId in clients {
        var text := "[" + clients[clientId] + "] " + content;
        deliveries := SendToOthers(clients, Some(clientId), text);
      } else {
        deliveries := [];
      }
    }

    /** A Leave: the client is removed and everybody remaining is told. */
    method Leave(id: nat) returns (deliveries: seq<(nat, string)>)
      requires Valid() && id in clients
      modifies this
      ensures Valid() && State() == Next(old(State()), LeaveEvent(id))
      ensures forall k :: 0 <= k < |deliveries| ==> deliveries[k].1 == Broadcast(old(State()), LeaveEvent(id))
      ensures forall r :: SentTo(deliveries, r) <==> r in Recipients(old(State()), LeaveEvent(id))
      ensures forall i, j :: 0 <= i < j < |deliveries| ==> deliveries[i].0 != deliveries[j].0
    {
      NextFresh(State(), LeaveEvent(id));
      var name := clients[id];
      clients := clients - {id};
      deliveries := SendToOthers(clients, None, "* " + name + " has left the room");
    }
  }
}
