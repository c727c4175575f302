/** The server's registry of agents, under every interleaving of connections, failures and removals. */
module ServerRegistry {
  import opened Prelude

  /** The peer's address without its port. */
  type Id = Bytes

  /** A client, known by the number of the connection it was made for. */
  datatype Client = Client(number: nat, id: Id)

  /** Where a run of `HandleConn` stands. */
  datatype Phase = Arrived | Ignored | Serving | Leaving | Gone

  /** One run; `valid` is the flag of its client, once there is one. */
  datatype Run = Run(id: Id, phase: Phase, valid: bool)

  datatype Server = Server(clients: map<Id, Client>, runs: seq<Run>)

  datatype Action =
    | Connect(id: Id)
    | Register(run: nat)
    | SendFails(run: nat)
    | ReadFails(run: nat)
    | Remove(run: nat)

  predicate HasClient(p: Phase) {
    p.Serving? || p.Leaving? || p.Gone?
  }

  /** Still to be removed. */
  predicate InService(p: Phase) {
    p.Serving? || p.Leaving?
  }

  predicate Enabled(s: Server, a: Action) {
    match a
    case Connect(_) => true
    case Register(r) => r < |s.runs| && s.runs[r].phase.Arrived?
    case SendFails(r) => r < |s.runs| && HasClient(s.runs[r].phase)
    case ReadFails(r) => r < |s.runs| && s.runs[r].phase.Serving?
    case Remove(r) => r < |s.runs| && s.runs[r].phase.Leaving?
  }

  /** The locked part of `HandleConn`. */
  function Registered(clients: map<Id, Client>, c: Client): map<Id, Client> {
    if c.id in clients then clients else clients[c.id := c]
  }

  /** The locked part of `InValidClient`, which deletes by id whatever is there. */
  function Removed(clients: map<Id, Client>, id: Id): map<Id, Client> {
    clients - {id}
  }

  function Next(s: Server, a: Action): Server
    requires Enabled(s, a)
  {
    match a
    case Connect(id) => s.(runs := s.runs + [Run(id, Arrived, false)])
    case Register(r) =>
      var id := s.runs[r].id;
      if id in s.clients then s.(runs := s.runs[r := Run(id, Ignored, false)])
      else Server(Registered(s.clients, Client(r, id)), s.runs[r := Run(id, Serving, true)])
    case SendFails(r) => s.(runs := s.runs[r := s.runs[r].(valid := false)])
    case ReadFails(r) => s.(runs := s.runs[r := s.runs[r].(phase := Leaving, valid := false)])
    case Remove(r) => Server(Removed(s.clients, s.runs[r].id), s.runs[r := s.runs[r].(phase := Gone)])
  }

  // ----- The registry and the serving runs are in bijection -----

  /** The entry under an id is the client of a run in service from that address. */
  ghost predicate EntryOk(s: Server, id: Id)
    requires id in s.clients
  {
    var c := s.clients[id];
    c.id == id && c.number < |s.runs| && s.runs[c.number].id == id && InService(s.runs[c.number].phase)
  }

  /** A run in service has its own client registered. */
  ghost predicate RunOk(s: Server, r: nat)
    requires r < |s.runs|
  {
    InService(s.runs[r].phase) ==> s.runs[r].id in s.clients && s.clients[s.runs[r].id] == Client(r, s.runs[r].id)
  }

  ghost predicate Inv(s: Server) {
    && (forall id | id in s.clients :: EntryOk(s, id))
    && (forall r | 0 <= r < |s.runs| :: RunOk(s, r))
  }

  lemma StepKeeps(s: Server, a: Action)
    requires Inv(s) && Enabled(s, a)
    ensures Inv(Next(s, a))
  {
    var s' := Next(s, a);
    forall id | id in s'.clients
      ensures EntryOk(s', id)
    {
      assert id in s.clients ==> EntryOk(s, id);
      if a.Remove? {
        assert RunOk(s, a.run);
      }
    }
    forall r | 0 <= r < |s'.runs|
      ensures RunOk(s', r)
    {
      assert r < |s.runs| ==> RunOk(s, r);
      if a.Remove? {
        assert RunOk(s, a.run);
      }
    }
  }

  ghost predicate Reachable(s: Server, steps: seq<Action>)
    decreases |steps|
  {
    if |steps| == 0 then s == Server(map[], [])
    else
      var k := |steps| - 1;
      exists r :: Reachable(r, steps[..k]) && Enabled(r, steps[k]) && s == Next(r, steps[k])
  }

  lemma {:induction false} ReachableKeeps(s: Server, steps: seq<Action>)
    requires Reachable(s, steps)
    ensures Inv(s)
    decreases |steps|
  {
    if |steps| > 0 {
      var k := |steps| - 1;
      var r :| Reachable(r, steps[..k]) && Enabled(r, steps[k]) && s == Next(r, steps[k]);
      ReachableKeeps(r, steps[..k]);
      StepKeeps(r, steps[k]);
    }
  }

  /**
   * In every reachable state: deleting by id deletes the caller's own client and no other, in particular
   * not that of a newer connection from the same address; and two runs in service have different ids.
   */
  lemma RemovesOwn(s: Server, steps: seq<Action>, r: nat)
    requires Reachable(s, steps) && Enabled(s, Remove(r))
    ensures s.runs[r].id in s.clients && s.clients[s.runs[r].id] == Client(r, s.runs[r].id)
    ensures forall q | 0 <= q < |s.runs| && q != r && InService(s.runs[q].phase) ::
      s.runs[q].id != s.runs[r].id && s.runs[q].id in Next(s, Remove(r)).clients
        && Next(s, Remove(r)).clients[s.runs[q].id].number == q
  {
    ReachableKeeps(s, steps);
    assert RunOk(s, r);
    forall q | 0 <= q < |s.runs| && q != r && InService(s.runs[q].phase)
      ensures s.runs[q].id != s.runs[r].id && s.runs[q].id in Next(s, Remove(r)).clients
        && Next(s, Remove(r)).clients[s.runs[q].id].number == q
    {
      assert RunOk(s, q);
    }
  }

  ghost predicate Leads(s: Server, steps: seq<Action>, s': Server)
    decreases |steps|
  {
    if |steps| == 0 then s' == s
    else Enabled(s, steps[0]) && Leads(Next(s, steps[0]), steps[1..], s')
  }

  /** A client that was made and is no longer valid never becomes valid again. */
  lemma {:induction false} NeverValidAgain(s: Server, steps: seq<Action>, s': Server, r: nat)
    requires Leads(s, steps, s') && r < |s.runs| && HasClient(s.runs[r].phase) && !s.runs[r].valid
    ensures r < |s'.runs| && HasClient(s'.runs[r].phase) && !s'.runs[r].valid
    decreases |steps|
  {
    if |steps| > 0 {
      NeverValidAgain(Next(s, steps[0]), steps[1..], s', r);
    }
  }

  // ----- The map itself -----

  /** Each entry's key is its client's id. */
  ghost predicate Keyed(clients: map<Id, Client>) {
    forall id | id in clients :: clients[id].id == id
  }

  /** In particular in every reachable state. */
  lemma AlwaysKeyed(s: Server, steps: seq<Action>)
    requires Reachable(s, steps)
    ensures Keyed(s.clients)
  {
    ReachableKeeps(s, steps);
    assert forall id | id in s.clients :: EntryOk(s, id);
  }

  /** `invalid` are the numbers of the clients whose flag is down. */
  class TcpServer {
    var clients: map<Id, Client>
    var invalid: set<nat>

    constructor ()
      ensures clients == map[] && invalid == {}
    {
      clients, invalid := map[], {};
    }

    method EnterClient(c: Client) returns (entered: bool)
      modifies this
      ensures clients == Registered(old(clients), c) && entered == (c.id !in old(clients)) && invalid == old(invalid)
      ensures old(Keyed(clients)) ==> Keyed(clients)
    {
      if c.id in clients {
        return false;
      }
      clients := clients[c.id := c];
      return true;
    }

    method InValidClient(c: Client)
      modifies this
      ensures clients == Removed(old(clients), c.id) && invalid == old(invalid) + {c.number}
      ensures old(Keyed(clients)) ==> Keyed(clients)
    {
      invalid := invalid + {c.number};
      if c.id in clients {
        clients := clients - {c.id};
      }
    }

    /**
     * Whatever order the map is walked in: each registered client is sent the message as often as its id is
     * on the list, and nobody else is sent anything.
     */
    method Multicast(iplist: seq<Id>) returns (sent: seq<Client>)
      requires Keyed(clients)
      ensures forall id | id in clients :: multiset(sent)[clients[id]] == multiset(iplist)[id]
      ensures forall c | c in sent :: c.id in clients && clients[c.id] == c
    {
      sent := [];
      var todo := clients.Keys;
      while todo != {}
        invariant todo <= clients.Keys
        invariant forall id | id in clients :: multiset(sent)[clients[id]] == if id in todo then 0 else multiset(iplist)[id]
        invariant forall c | c in sent :: c.id in clients && clients[c.id] == c
        decreases |todo|
      {
        var k :| k in todo;
        var more := SendTo(clients[k], iplist);
        forall id | id in clients
          ensures multiset(sent + more)[clients[id]] == if id in todo - {k} then 0 else multiset(iplist)[id]
        {
          assert multiset(sent + more)[clients[id]] == multiset(sent)[clients[id]] + multiset(more)[clients[id]];
        }
        sent := sent + more;
        todo := todo - {k};
      }
    }

    /** Each registered id once, in whatever order. */
    method ListAliveAgents() returns (agents: seq<Id>)
      requires Keyed(clients)
      ensures forall id :: multiset(agents)[id] == if id in clients then 1 else 0
    {
      agents := [];
      var todo := clients.Keys;
      while todo != {}
        invariant todo <= clients.Keys
        invariant forall id :: multiset(agents)[id] == if id in clients && id !in todo then 1 else 0
        decreases |todo|
      {
        var k :| k in todo;
        agents := agents + [clients[k].id];
        todo := todo - {k};
      }
    }
  }

  /** The inner loop: once for each occurrence of the client's id. */
  method SendTo(c: Client, iplist: seq<Id>) returns (sent: seq<Client>)
    ensures multiset(sent)[c] == multiset(iplist)[c.id]
    ensures forall d | d in sent :: d == c
    ensures forall d | d != c :: multiset(sent)[d] == 0
  {
    sent := [];
    var i := 0;
    while i < |iplist|
      invariant 0 <= i <= |iplist|
      invariant multiset(sent)[c] == multiset(iplist[..i])[c.id]
      invariant forall d | d in sent :: d == c
    {
      assert iplist[..i + 1] == iplist[..i] + [iplist[i]];
      if iplist[i] == c.id {
        sent := sent + [c];
      }
      i := i + 1;
    }
    assert iplist[..i] == iplist;
    forall d | d != c
      ensures multiset(sent)[d] == 0
    {
      assert d !in sent;
    }
  }
}
