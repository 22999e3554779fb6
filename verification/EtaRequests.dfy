// The ETA requests of client.c: a request fans out to the connected clients, its record counts
// the outstanding ones, and whoever brings the count to zero fires the callback and frees it.
// Events are handled one at a time by one thread.
module EtaRequests {
  import opened Wrappers

  type Cid = nat
  type EtaId = nat

  // `running` is state == Client_running; `listed` is membership of eta_list; `reply` is the
  // saved tag of the client's outstanding SEND_ETA command.
  datatype Client = Client(running: bool, inFlight: Option<EtaId>, listed: bool, reply: Option<EtaId>)

  // struct client_eta: the outstanding clients, and the summed answers.
  datatype Eta = Eta(pending: int, sum: int)

  // What has happened to a request: the clients connected when it was made, those neither asked
  // nor skipped then, the sum of the answers so far, and the values its callback was given.
  datatype Past = Past(total: nat, unasked: nat, answered: int, fired: seq<int>)

  // `list` is client_list and `etas` the records that are allocated.
  datatype Table = Table(list: seq<Cid>, nrClients: int, clients: map<Cid, Client>, etas: map<EtaId, Eta>, past: seq<Past>)

  // ----- the events -----

  // fio_client_dec_jobs_eta
  function Dec(t: Table, e: EtaId): Table
    requires e in t.etas && e < |t.past|
  {
    var eta := t.etas[e].(pending := t.etas[e].pending - 1);
    if eta.pending == 0
    then t.(etas := t.etas - {e}, past := t.past[e := t.past[e].(fired := t.past[e].fired + [eta.sum])])
    else t.(etas := t.etas[e := eta])
  }

  // Count down once for each skipped client, and stop when the record is gone.
  function DecTimes(t: Table, e: EtaId, skipped: nat): Table
    requires e < |t.past|
    decreases skipped
  {
    if skipped == 0 || e !in t.etas then t else DecTimes(Dec(t, e), e, skipped - 1)
  }

  // A client as a new request e leaves it; `sent` is whether the command could be sent.
  function AskClient(c: Client, e: EtaId, sent: bool): Client {
    if c.listed || !c.running then c
    else c.(inFlight := Some(e), listed := true, reply := if sent then Some(e) else c.reply)
  }

  function Listed(clients: map<Cid, Client>): set<Cid> {
    set c | c in clients && clients[c].listed
  }

  function Idle(clients: map<Cid, Client>): set<Cid> {
    set c | c in clients && !clients[c].listed && !clients[c].running
  }

  // The table after the loop of request_client_etas over the clients.
  function Ask(t: Table, sent: set<Cid>): Table {
    var e := |t.past|;
    t.(clients := map c | c in t.clients :: AskClient(t.clients[c], e, c in sent),
       etas := t.etas[e := Eta(t.nrClients, 0)],
       past := t.past + [Past(if t.nrClients < 0 then 0 else t.nrClients, |Idle(t.clients)|, 0, [])])
  }

  function Request(t: Table, sent: set<Cid>): Table {
    DecTimes(Ask(t, sent), |t.past|, |Listed(t.clients)|)
  }

  // handle_eta, for an answer whose tag matches the client's outstanding command.
  function Answer(t: Table, c: Cid, jobs: int): Table
    requires c in t.clients && t.clients[c].reply.Some?
    requires t.clients[c].reply.value in t.etas && t.clients[c].reply.value < |t.past|
  {
    var e := t.clients[c].reply.value;
    var client := t.clients[c].(inFlight := None, listed := false, reply := None);
    var added := t.(clients := t.clients[c := client],
                    etas := t.etas[e := t.etas[e].(sum := t.etas[e].sum + jobs)],
                    past := t.past[e := t.past[e].(answered := t.past[e].answered + jobs)]);
    Dec(added, e)
  }

  predicate FlightLive(t: Table, c: Cid) {
    c in t.clients && (t.clients[c].inFlight.Some? ==> t.clients[c].inFlight.value in t.etas && t.clients[c].inFlight.value < |t.past|)
  }

  // handle_cmd_timeout of an outstanding SEND_ETA
  function Timeout(t: Table, c: Cid): Table
    requires FlightLive(t, c)
  {
    var client := t.clients[c].(inFlight := None, listed := false, reply := None);
    var quiet := t.(clients := t.clients[c := client]);
    if t.clients[c].inFlight.Some? then Dec(quiet, t.clients[c].inFlight.value) else quiet
  }

  // remove_client up to the count-down.
  function Gone(t: Table, c: Cid): Table {
    t.(list := Without(t.list, c), nrClients := t.nrClients - 1, clients := t.clients - {c})
  }

  // remove_client
  function Remove(t: Table, c: Cid): Table
    requires FlightLive(t, c) && (t.clients[c].listed ==> t.clients[c].inFlight.Some?)
  {
    var gone := Gone(t, c);
    if t.clients[c].listed then Dec(gone, t.clients[c].inFlight.value) else gone
  }

  // fio_client_add and the state changes of fio_handle_client
  function Add(t: Table, c: Cid): Table {
    t.(list := [c] + t.list, nrClients := t.nrClients + 1, clients := t.clients[c := Client(false, None, false, None)])
  }

  function SetRunning(t: Table, c: Cid, running: bool): Table
    requires c in t.clients
  {
    t.(clients := t.clients[c := t.clients[c].(running := running)])
  }

  // ----- the invariant -----

  // The clients that still owe request e an answer.
  function Asked(clients: map<Cid, Client>, e: EtaId): set<Cid> {
    set c | c in clients && clients[c].inFlight == Some(e)
  }

  ghost predicate ListOk(t: Table) {
    Distinct(t.list) && t.nrClients == |t.list| && forall c :: c in t.list <==> c in t.clients
  }

  ghost predicate ClientOk(t: Table, c: Cid)
    requires c in t.clients
  {
    var client := t.clients[c];
    && (client.listed <==> client.inFlight.Some?)
    && (client.reply.Some? ==> client.inFlight == client.reply)
    && (client.inFlight.Some? ==> client.inFlight.value in t.etas)
  }

  // A request is live, its record counting the clients asked and those never asked; or it has
  // fired once, with the sum of the answers, and nobody owes it anything.
  ghost predicate EtaOk(t: Table, e: EtaId)
    requires e < |t.past|
  {
    var p, owing := t.past[e], |Asked(t.clients, e)|;
    if e in t.etas then
      && p.fired == [] && t.etas[e] == Eta(owing + p.unasked, p.answered)
      && (owing + p.unasked == 0 <==> p.total == 0)
    else
      p.fired == [p.answered] && owing == 0 && p.unasked == 0 && p.total > 0
  }

  ghost predicate Inv(t: Table) {
    && ListOk(t)
    && (forall c :: c in t.clients ==> ClientOk(t, c))
    && (forall e :: e in t.etas ==> e < |t.past|)
    && (forall e :: 0 <= e < |t.past| ==> EtaOk(t, e))
  }

  lemma AskedUpdate(clients: map<Cid, Client>, c: Cid, client: Client, e: EtaId)
    requires c in clients
    ensures |Asked(clients[c := client], e)| == |Asked(clients, e)|
            - (if clients[c].inFlight == Some(e) then 1 else 0) + (if client.inFlight == Some(e) then 1 else 0)
  {
    var before, after := Asked(clients, e), Asked(clients[c := client], e);
    if clients[c].inFlight == Some(e) && client.inFlight != Some(e) {
      assert after == before - {c};
    } else if clients[c].inFlight != Some(e) && client.inFlight == Some(e) {
      assert after == before + {c};
    } else {
      assert after == before;
    }
  }

  lemma AskedRemove(clients: map<Cid, Client>, c: Cid, e: EtaId)
    requires c in clients
    ensures |Asked(clients - {c}, e)| == |Asked(clients, e)| - (if clients[c].inFlight == Some(e) then 1 else 0)
  {
    assert Asked(clients - {c}, e) == Asked(clients, e) - {c};
    if clients[c].inFlight != Some(e) {
      assert Asked(clients - {c}, e) == Asked(clients, e);
    }
  }

  // Taking a client's debt e off, and counting it down, keeps every request in order: `rest` is
  // the table with the client settled or gone but the record not yet counted down.
  lemma DecInv(t: Table, rest: Table, e: EtaId)
    requires Inv(t) && e in t.etas && ListOk(rest) && rest.etas.Keys == t.etas.Keys && |rest.past| == |t.past|
    requires forall f :: f in t.etas && f != e ==> rest.etas[f] == t.etas[f]
    requires forall f :: 0 <= f < |t.past| && f != e ==> rest.past[f] == t.past[f]
    requires rest.etas[e].pending == t.etas[e].pending && rest.etas[e].sum == rest.past[e].answered
    requires rest.past[e] == t.past[e].(answered := rest.past[e].answered)
    requires forall f :: |Asked(rest.clients, f)| == |Asked(t.clients, f)| - (if f == e then 1 else 0)
    requires forall c :: c in rest.clients ==> ClientOk(rest, c)
    ensures Inv(Dec(rest, e))
  {
    var t' := Dec(rest, e);
    assert EtaOk(t, e);
    forall f | 0 <= f < |t'.past|
      ensures EtaOk(t', f)
    {
      assert EtaOk(t, f);
    }
    forall c | c in t'.clients
      ensures ClientOk(t', c)
    {
      assert ClientOk(rest, c);
      if t'.clients[c].inFlight == Some(e) {
        assert c in Asked(rest.clients, e);
      }
    }
  }

  lemma SettleInv(t: Table, c: Cid, added: Table, e: EtaId)
    requires Inv(t) && c in t.clients && t.clients[c].inFlight == Some(e)
    requires var client := t.clients[c].(inFlight := None, listed := false, reply := None);
             added.clients == t.clients[c := client]
    requires added.list == t.list && added.nrClients == t.nrClients
    requires e in added.etas && added.etas.Keys == t.etas.Keys && |added.past| == |t.past|
    requires forall f :: f in t.etas && f != e ==> added.etas[f] == t.etas[f]
    requires forall f :: 0 <= f < |t.past| && f != e ==> added.past[f] == t.past[f]
    requires added.etas[e].pending == t.etas[e].pending && added.etas[e].sum == added.past[e].answered
    requires added.past[e] == t.past[e].(answered := added.past[e].answered)
    ensures Inv(Dec(added, e))
  {
    forall f
      ensures |Asked(added.clients, f)| == |Asked(t.clients, f)| - (if f == e then 1 else 0)
    {
      AskedUpdate(t.clients, c, added.clients[c], f);
    }
    forall d | d in added.clients
      ensures ClientOk(added, d)
    {
      assert ClientOk(t, d);
    }
    DecInv(t, added, e);
  }

  // An answer: the assert of handle_eta holds, the record is live, and everything stays in order.
  lemma AnswerInv(t: Table, c: Cid, jobs: int)
    requires Inv(t) && c in t.clients && t.clients[c].reply.Some?
    ensures t.clients[c].inFlight == t.clients[c].reply && t.clients[c].reply.value in t.etas
    ensures t.clients[c].reply.value < |t.past| && Inv(Answer(t, c, jobs))
  {
    assert ClientOk(t, c);
    var e := t.clients[c].reply.value;
    assert EtaOk(t, e);
    var client := t.clients[c].(inFlight := None, listed := false, reply := None);
    var added := t.(clients := t.clients[c := client],
                    etas := t.etas[e := t.etas[e].(sum := t.etas[e].sum + jobs)],
                    past := t.past[e := t.past[e].(answered := t.past[e].answered + jobs)]);
    SettleInv(t, c, added, e);
  }

  lemma TimeoutInv(t: Table, c: Cid)
    requires Inv(t) && c in t.clients
    ensures FlightLive(t, c) && Inv(Timeout(t, c))
  {
    assert ClientOk(t, c);
    var client := t.clients[c].(inFlight := None, listed := false, reply := None);
    var quiet := t.(clients := t.clients[c := client]);
    if t.clients[c].inFlight.Some? {
      assert EtaOk(t, t.clients[c].inFlight.value);
      SettleInv(t, c, quiet, t.clients[c].inFlight.value);
    } else {
      SameFlights(t, quiet, c);
    }
  }

  // A change to a client that is not in flight.
  lemma SameFlights(t: Table, t': Table, c: Cid)
    requires Inv(t) && c in t.clients && c in t'.clients && t' == t.(clients := t.clients[c := t'.clients[c]])
    requires t'.clients[c].inFlight == t.clients[c].inFlight && t'.clients[c].listed == t.clients[c].listed
    requires t'.clients[c].reply == t.clients[c].reply
    ensures Inv(t')
  {
    forall e | 0 <= e < |t'.past|
      ensures EtaOk(t', e)
    {
      assert EtaOk(t, e);
      AskedUpdate(t.clients, c, t'.clients[c], e);
    }
    forall d | d in t'.clients
      ensures ClientOk(t', d)
    {
      assert ClientOk(t, d);
    }
  }

  lemma GoneOk(t: Table, c: Cid)
    requires Inv(t) && c in t.clients
    ensures ListOk(Gone(t, c)) && forall d :: d in Gone(t, c).clients ==> ClientOk(Gone(t, c), d)
  {
    WithoutMember(t.list, c);
    forall d | d in Gone(t, c).clients
      ensures ClientOk(Gone(t, c), d)
    {
      assert ClientOk(t, d);
    }
  }

  lemma RemoveInv(t: Table, c: Cid)
    requires Inv(t) && c in t.clients
    ensures FlightLive(t, c) && (t.clients[c].listed ==> t.clients[c].inFlight.Some?) && Inv(Remove(t, c))
  {
    assert ClientOk(t, c);
    var gone := Gone(t, c);
    GoneOk(t, c);
    forall e: EtaId
      ensures |Asked(gone.clients, e)| == |Asked(t.clients, e)| - (if t.clients[c].inFlight == Some(e) then 1 else 0)
    {
      AskedRemove(t.clients, c, e);
    }
    if t.clients[c].listed {
      assert EtaOk(t, t.clients[c].inFlight.value);
      DecInv(t, gone, t.clients[c].inFlight.value);
    } else {
      forall e | 0 <= e < |gone.past|
        ensures EtaOk(gone, e)
      {
        assert EtaOk(t, e);
      }
    }
  }

  lemma AddInv(t: Table, c: Cid)
    requires Inv(t) && c !in t.clients
    ensures Inv(Add(t, c))
  {
    var t' := Add(t, c);
    DistinctCons(c, t.list);
    forall e | 0 <= e < |t'.past|
      ensures EtaOk(t', e)
    {
      assert EtaOk(t, e);
      assert Asked(t'.clients, e) == Asked(t.clients, e);
    }
    forall d | d in t'.clients
      ensures ClientOk(t', d)
    {
      if d != c {
        assert ClientOk(t, d);
      }
    }
  }

  // ----- a new request -----

  lemma {:induction false} SizeOfList(l: seq<Cid>, s: set<Cid>)
    requires Distinct(l) && forall c :: c in l <==> c in s
    ensures |s| == |l|
  {
    if l == [] {
      assert s == {};
    } else {
      assert l == [l[0]] + l[1..];
      DistinctCons(l[0], l[1..]);
      SizeOfList(l[1..], s - {l[0]});
    }
  }

  // Every client is skipped, asked, or neither.
  lemma AskCounts(t: Table, sent: set<Cid>)
    requires Inv(t)
    ensures t.nrClients == |Listed(t.clients)| + |Asked(Ask(t, sent).clients, |t.past|)| + |Idle(t.clients)|
  {
    var listed, asked, idle := Listed(t.clients), Asked(Ask(t, sent).clients, |t.past|), Idle(t.clients);
    forall c | c in t.clients
      ensures c in asked <==> !t.clients[c].listed && t.clients[c].running
    {
      assert ClientOk(t, c);
    }
    Partition(t.clients.Keys, listed, asked, idle);
    SizeOfList(t.list, t.clients.Keys);
  }

  lemma Partition(all: set<Cid>, a: set<Cid>, b: set<Cid>, c: set<Cid>)
    requires forall x :: x in all <==> x in a || x in b || x in c
    requires forall x :: !(x in a && x in b) && !(x in a && x in c) && !(x in b && x in c)
    ensures |all| == |a| + |b| + |c|
  {
    assert all == a + (b + c);
  }

  // Nobody's debt to an earlier request changes.
  lemma AskKeepsFlights(t: Table, sent: set<Cid>, f: EtaId)
    requires Inv(t) && f < |t.past|
    ensures Asked(Ask(t, sent).clients, f) == Asked(t.clients, f)
  {
    var clients := Ask(t, sent).clients;
    forall c | c in t.clients
      ensures clients[c].inFlight == Some(f) <==> t.clients[c].inFlight == Some(f)
    {
      assert ClientOk(t, c);
    }
  }

  // Counting down for the skipped clients: the record still counts the rest, or it has fired.
  lemma {:induction false} DecTimesResult(t: Table, e: EtaId, skipped: nat)
    requires e in t.etas && e < |t.past| && t.etas[e].pending >= skipped
    ensures var pending := t.etas[e].pending - skipped;
            DecTimes(t, e, skipped)
            == if skipped > 0 && pending == 0
               then t.(etas := t.etas - {e}, past := t.past[e := t.past[e].(fired := t.past[e].fired + [t.etas[e].sum])])
               else t.(etas := t.etas[e := t.etas[e].(pending := pending)])
    decreases skipped
  {
    if skipped > 0 {
      var t' := Dec(t, e);
      if t.etas[e].pending > 1 {
        DecTimesResult(t', e, skipped - 1);
        assert t'.etas - {e} == t.etas - {e};
        assert t'.etas[e := Eta(0, 0)] == t.etas[e := Eta(0, 0)];
      } else {
        assert skipped == 1;
      }
    } else {
      assert t.etas[e := t.etas[e]] == t.etas;
    }
  }

  lemma RequestInv(t: Table, sent: set<Cid>)
    requires Inv(t)
    ensures Inv(Request(t, sent))
  {
    var asking, e := Ask(t, sent), |t.past|;
    AskCounts(t, sent);
    DecTimesResult(asking, e, |Listed(t.clients)|);
    var t' := Request(t, sent);
    forall f | 0 <= f < |t'.past|
      ensures EtaOk(t', f)
    {
      if f < e {
        assert EtaOk(t, f);
        AskKeepsFlights(t, sent, f);
      }
    }
    forall c | c in t'.clients
      ensures ClientOk(t', c)
    {
      assert ClientOk(t, c);
      if t'.clients[c].inFlight == Some(e) {
        assert c in Asked(t'.clients, e);
      }
    }
  }

  // ----- whole runs -----

  datatype Event =
    | EvRequest(sent: set<Cid>)
    | EvAnswer(c: Cid, jobs: int)
    | EvTimeout(c: Cid)
    | EvRemove(c: Cid)
    | EvAdd(c: Cid)
    | EvState(c: Cid, running: bool)

  // An answer is only handled, and a timeout only raised, for a command that is outstanding.
  predicate Possible(t: Table, ev: Event) {
    match ev
    case EvRequest(_) => true
    case EvAnswer(c, _) => c in t.clients && t.clients[c].reply.Some?
    case EvTimeout(c) => c in t.clients && t.clients[c].reply.Some?
    case EvRemove(c) => c in t.clients
    case EvAdd(c) => c !in t.clients
    case EvState(c, _) => c in t.clients
  }

  ghost function Handle(t: Table, ev: Event): (t': Table)
    requires Inv(t) && Possible(t, ev)
    ensures Inv(t')
  {
    match ev
    case EvRequest(sent) => RequestInv(t, sent); Request(t, sent)
    case EvAnswer(c, jobs) => AnswerInv(t, c, jobs); Answer(t, c, jobs)
    case EvTimeout(c) => TimeoutInv(t, c); Timeout(t, c)
    case EvRemove(c) => RemoveInv(t, c); Remove(t, c)
    case EvAdd(c) => AddInv(t, c); Add(t, c)
    case EvState(c, running) =>
      SameFlights(t, SetRunning(t, c, running), c);
      SetRunning(t, c, running)
  }

  ghost predicate RunPossible(t: Table, evs: seq<Event>)
    requires Inv(t)
    decreases |evs|
  {
    evs != [] ==> Possible(t, evs[0]) && RunPossible(Handle(t, evs[0]), evs[1..])
  }

  ghost function HandleAll(t: Table, evs: seq<Event>): (t': Table)
    requires Inv(t) && RunPossible(t, evs)
    ensures Inv(t')
    decreases |evs|
  {
    if evs == [] then t else HandleAll(Handle(t, evs[0]), evs[1..])
  }

  const EMPTY: Table := Table([], 0, map[], map[], [])

  lemma EmptyInv()
    ensures Inv(EMPTY)
  {}

  // What a new request finds and asks for: it counts all connected clients and those it neither asks
  // nor skips, and a running client that owes nothing then owes it, with a reply outstanding if the
  // command could be sent.
  lemma RequestAsks(t: Table, sent: set<Cid>, c: Cid)
    requires Inv(t)
    ensures var r, e := Request(t, sent), |t.past|;
            && |r.past| == e + 1 && r.past[e].total == |t.clients.Keys| && r.past[e].unasked == |Idle(t.clients)|
            && r.clients.Keys == t.clients.Keys
            && (c in t.clients ==>
                  var asked := !t.clients[c].listed && t.clients[c].running;
                  && r.clients[c].inFlight == (if asked then Some(e) else t.clients[c].inFlight)
                  && r.clients[c].reply == (if asked && c in sent then Some(e) else t.clients[c].reply))
  {
    AskCounts(t, sent);
    DecTimesResult(Ask(t, sent), |t.past|, |Listed(t.clients)|);
    SizeOfList(t.list, t.clients.Keys);
    if c in t.clients {
      assert ClientOk(t, c);
    }
  }

  // What the other events do to a client: its own answer or timeout settles it, and nothing else does;
  // a new client does not run and owes nothing.
  lemma EventSettles(t: Table, ev: Event, c: Cid)
    requires Inv(t) && Possible(t, ev) && !ev.EvRequest? && c in t.clients
    ensures var r := Handle(t, ev);
            && (ev.EvRemove? && ev.c == c <==> c !in r.clients)
            && (ev.EvAdd? ==> ev.c in r.clients && r.clients[ev.c] == Client(false, None, false, None))
            && (c in r.clients ==>
                  var settled := (ev.EvAnswer? || ev.EvTimeout?) && ev.c == c;
                  && r.clients[c].inFlight == (if settled then None else t.clients[c].inFlight)
                  && r.clients[c].reply == (if settled then None else t.clients[c].reply)
                  && r.clients[c].running == (if ev.EvState? && ev.c == c then ev.running else t.clients[c].running))
  {
    if !ev.EvAdd? {
      assert ClientOk(t, ev.c);
    }
  }

  // The jobs in the answers to request e: those of clients with its reply outstanding.
  ghost function AnswerSum(t: Table, evs: seq<Event>, e: EtaId): int
    requires Inv(t) && RunPossible(t, evs)
    decreases |evs|
  {
    if evs == [] then 0
    else
      var ev := evs[0];
      (if ev.EvAnswer? && t.clients[ev.c].reply == Some(e) then ev.jobs else 0) + AnswerSum(Handle(t, ev), evs[1..], e)
  }

  lemma AnswersStep(t: Table, ev: Event, e: EtaId)
    requires Inv(t) && Possible(t, ev)
    ensures var r := Handle(t, ev);
            var jobs := if ev.EvAnswer? && t.clients[ev.c].reply == Some(e) then ev.jobs else 0;
            && |t.past| <= |r.past|
            && (e < |t.past| ==> r.past[e].answered == t.past[e].answered + jobs)
            && (|t.past| <= e ==> jobs == 0 && (e < |r.past| ==> r.past[e].answered == 0))
  {
    if ev.EvRequest? {
      AskCounts(t, ev.sent);
      DecTimesResult(Ask(t, ev.sent), |t.past|, |Listed(t.clients)|);
    } else if !ev.EvAdd? {
      assert ClientOk(t, ev.c);
    }
  }

  lemma {:induction false} AnswersRun(t: Table, evs: seq<Event>, e: EtaId)
    requires Inv(t) && RunPossible(t, evs) && e < |HandleAll(t, evs).past|
    ensures HandleAll(t, evs).past[e].answered
            == (if e < |t.past| then t.past[e].answered else 0) + AnswerSum(t, evs, e)
    decreases |evs|
  {
    if evs != [] {
      AnswersStep(t, evs[0], e);
      AnswersRun(Handle(t, evs[0]), evs[1..], e);
    }
  }

  // EXACTLY ONCE: after any run, the callback of a request has fired at most once, with the sum of
  // the answers; and it has fired if and only if some client was connected, every one of them was
  // asked or skipped, and every asked one has answered, timed out or been removed.
  lemma FiresExactlyOnce(evs: seq<Event>, e: EtaId)
    requires Inv(EMPTY) && RunPossible(EMPTY, evs) && e < |HandleAll(EMPTY, evs).past|
    ensures var t := HandleAll(EMPTY, evs);
            var p := t.past[e];
            && |p.fired| <= 1 && (p.fired != [] ==> p.fired == [AnswerSum(EMPTY, evs, e)])
            && (e in t.etas ==> t.etas[e].sum == AnswerSum(EMPTY, evs, e))
            && (p.fired != [] <==> p.total > 0 && p.unasked == 0 && Asked(t.clients, e) == {})
  {
    var t := HandleAll(EMPTY, evs);
    assert EtaOk(t, e);
    AnswersRun(EMPTY, evs, e);
  }

  // NO USE AFTER FREE: after any run, whatever a client still points to is allocated, and an
  // outstanding command carries the request its client points to.
  lemma FlightsAreLive(evs: seq<Event>, c: Cid)
    requires Inv(EMPTY) && RunPossible(EMPTY, evs) && c in HandleAll(EMPTY, evs).clients
    ensures var t := HandleAll(EMPTY, evs);
            && (t.clients[c].inFlight.Some? ==> t.clients[c].inFlight.value in t.etas)
            && (t.clients[c].reply.Some? ==> t.clients[c].inFlight == t.clients[c].reply)
  {
    assert ClientOk(HandleAll(EMPTY, evs), c);
  }

  // A request made while a client is connected but not running, and not in flight, never fires.
  lemma IdleClientSilences(t: Table, sent: set<Cid>, c: Cid, evs: seq<Event>)
    requires Inv(t) && c in t.clients && !t.clients[c].listed && !t.clients[c].running
    requires Inv(Request(t, sent)) && RunPossible(Request(t, sent), evs)
    ensures var r := HandleAll(Request(t, sent), evs);
            |t.past| < |r.past| && r.past[|t.past|].fired == []
  {
    var asking, e := Ask(t, sent), |t.past|;
    AskCounts(t, sent);
    DecTimesResult(asking, e, |Listed(t.clients)|);
    assert c in Idle(t.clients);
    PastStays(Request(t, sent), evs, e);
    assert EtaOk(HandleAll(Request(t, sent), evs), e);
  }

  // What was true of a request when it was made stays on its record.
  lemma {:induction false} PastStays(t: Table, evs: seq<Event>, e: EtaId)
    requires Inv(t) && RunPossible(t, evs) && e < |t.past|
    ensures var r := HandleAll(t, evs);
            e < |r.past| && r.past[e].total == t.past[e].total && r.past[e].unasked == t.past[e].unasked
    decreases |evs|
  {
    if evs != [] {
      PastStep(t, evs[0], e);
      PastStays(Handle(t, evs[0]), evs[1..], e);
    }
  }

  lemma PastStep(t: Table, ev: Event, e: EtaId)
    requires Inv(t) && Possible(t, ev) && e < |t.past|
    ensures var r := Handle(t, ev);
            e < |r.past| && r.past[e].total == t.past[e].total && r.past[e].unasked == t.past[e].unasked
  {
    if ev.EvRequest? {
      AskCounts(t, ev.sent);
      DecTimesResult(Ask(t, ev.sent), |t.past|, |Listed(t.clients)|);
    } else if !ev.EvAdd? {
      assert ClientOk(t, ev.c);
    }
  }

  // ----- the code -----

  class ClientTable {
    var list: seq<Cid>
    var nrClients: int
    var clients: map<Cid, Client>
    var etas: map<EtaId, Eta>
    ghost var past: seq<Past>
    var nextEta: nat

    ghost function View(): Table
      reads this
    {
      Table(list, nrClients, clients, etas, past)
    }

    ghost predicate Valid()
      reads this
    {
      Inv(View()) && nextEta == |past|
    }

    constructor ()
      ensures Valid() && View() == EMPTY
    {
      list, nrClients, clients, etas, past, nextEta := [], 0, map[], map[], [], 0;
    }

    // fio_client_dec_jobs_eta: the record must be allocated; false if it was freed.
    method DecJobsEta(e: EtaId) returns (more: bool)
      requires e in etas && e < |past|
      modifies this`etas, this`past
      ensures View() == Dec(old(View()), e) && (more <==> e in etas)
      ensures |past| == old(|past|)
    {
      var eta := etas[e];
      eta := eta.(pending := eta.pending - 1);
      etas := etas[e := eta];
      if eta.pending == 0 {
        past := past[e := past[e].(fired := past[e].fired + [eta.sum])];
        etas := etas - {e};
        return false;
      }
      return true;
    }

    method RequestClientEtas(sent: set<Cid>)
      requires Valid()
      modifies this
      ensures Valid() && View() == Request(old(View()), sent)
    {
      ghost var t := View();
      RequestInv(t, sent);
      AskCounts(t, sent);
      var e, skipped := AskAll(sent);
      SkippedAll(t);
      CountDown(e, skipped);
    }

    // The record and the loop over client_list.
    method AskAll(sent: set<Cid>) returns (e: EtaId, skipped: nat)
      requires ListOk(View()) && nextEta == |past|
      requires forall c :: c in clients && clients[c].inFlight.Some? ==> clients[c].listed
      modifies this
      ensures View() == Ask(old(View()), sent) && e == |old(past)| && nextEta == |past|
      ensures skipped == |SkippedIn(old(clients), list)|
    {
      e := nextEta;
      nextEta := nextEta + 1;
      past := past + [Past(nrClients, |Idle(clients)|, 0, [])];
      etas := etas[e := Eta(nrClients, 0)];
      skipped := AskEach(e, sent);
      AllAsked(old(clients), clients, list, e, sent);
    }

    // The loop over client_list.
    method AskEach(e: EtaId, sent: set<Cid>) returns (skipped: nat)
      requires Distinct(list) && forall c :: c in list ==> c in clients
      requires forall c :: c in clients && clients[c].inFlight.Some? ==> clients[c].listed
      modifies this`clients
      ensures AskedUpTo(old(clients), clients, list, e, sent)
      ensures skipped == |SkippedIn(old(clients), list)|
    {
      ghost var was := clients;
      skipped := 0;
      for i := 0 to |list|
        invariant AskedUpTo(was, clients, list[..i], e, sent)
        invariant skipped == |SkippedIn(was, list[..i])|
      {
        NextAsked(was, clients, list, i, e, sent);
        var skip := AskOne(list[i], e, list[i] in sent);
        skipped := skipped + if skip then 1 else 0;
      }
      assert list[..|list|] == list;
    }

    // The loop's body.
    method AskOne(c: Cid, e: EtaId, sent: bool) returns (skip: bool)
      requires c in clients && (clients[c].inFlight.Some? ==> clients[c].listed)
      modifies this`clients
      ensures clients == old(clients)[c := AskClient(old(clients[c]), e, sent)] && skip == old(clients[c].listed)
    {
      if clients[c].listed {
        return true;
      }
      if clients[c].running {
        assert clients[c].inFlight.None?;
        clients := clients[c := clients[c].(listed := true)];
        clients := clients[c := clients[c].(inFlight := Some(e))];
        if sent {
          clients := clients[c := clients[c].(reply := Some(e))];
        }
      }
      return false;
    }

    // Count down once for each skipped client, and stop when the record is gone.
    method CountDown(e: EtaId, skipped: nat)
      requires e in etas && e < |past|
      modifies this`etas, this`past
      ensures View() == DecTimes(old(View()), e, skipped) && |past| == old(|past|)
    {
      var left: nat, more := skipped, true;
      while left > 0 && more
        invariant more ==> e in etas
        invariant e < |past| == old(|past|) && (!more ==> e !in etas)
        invariant DecTimes(View(), e, left) == DecTimes(old(View()), e, skipped)
      {
        left := left - 1;
        more := DecJobsEta(e);
      }
    }

    // handle_eta, once remove_reply_cmd has found the command of client c.
    method HandleEta(c: Cid, jobs: int)
      requires Valid() && c in clients && clients[c].reply.Some?
      modifies this
      ensures Valid() && old(clients[c].reply.value in etas && clients[c].reply.value < |past|)
      ensures View() == Answer(old(View()), c, jobs)
    {
      AnswerInv(View(), c, jobs);
      Settle(c, jobs);
    }

    method Settle(c: Cid, jobs: int)
      requires c in clients && clients[c].reply.Some? && clients[c].inFlight == clients[c].reply
      requires clients[c].reply.value in etas && clients[c].reply.value < |past|
      modifies this`clients, this`etas, this`past
      ensures View() == Answer(old(View()), c, jobs) && |past| == old(|past|)
    {
      var e := clients[c].reply.value;
      clients := clients[c := clients[c].(reply := None)];
      assert clients[c].inFlight == Some(e);
      clients := clients[c := clients[c].(inFlight := None)];
      clients := clients[c := clients[c].(listed := false)];
      etas := etas[e := etas[e].(sum := etas[e].sum + jobs)];
      past := past[e := past[e].(answered := past[e].answered + jobs)];
      assert clients == old(clients)[c := clients[c]];
      var _ := DecJobsEta(e);
    }

    // handle_cmd_timeout for an outstanding SEND_ETA of client c.
    method HandleCmdTimeout(c: Cid)
      requires Valid() && c in clients && clients[c].reply.Some?
      modifies this
      ensures Valid() && old(FlightLive(View(), c)) && View() == Timeout(old(View()), c)
    {
      TimeoutInv(View(), c);
      GiveUp(c);
    }

    method GiveUp(c: Cid)
      requires FlightLive(View(), c)
      modifies this`clients, this`etas, this`past
      ensures View() == Timeout(old(View()), c) && |past| == old(|past|)
    {
      clients := clients[c := clients[c].(reply := None)];
      clients := clients[c := clients[c].(listed := false)];
      var flight := clients[c].inFlight;
      if flight.Some? {
        var _ := DecJobsEta(flight.value);
        clients := clients[c := clients[c].(inFlight := None)];
      }
      assert clients == old(clients)[c := clients[c]];
    }

    // remove_client
    method RemoveClient(c: Cid)
      requires Valid() && c in clients
      modifies this
      ensures Valid() && old(FlightLive(View(), c) && (clients[c].listed ==> clients[c].inFlight.Some?))
      ensures View() == Remove(old(View()), c)
    {
      RemoveInv(View(), c);
      Drop(c);
    }

    method Drop(c: Cid)
      requires FlightLive(View(), c) && (clients[c].listed ==> clients[c].inFlight.Some?)
      modifies this`list, this`nrClients, this`clients, this`etas, this`past
      ensures View() == Remove(old(View()), c) && |past| == old(|past|)
    {
      var client := clients[c];
      list := Without(list, c);
      if client.listed {
        var _ := DecJobsEta(client.inFlight.value);
      }
      nrClients := nrClients - 1;
      clients := clients - {c};
    }
  }

  // The clients of l have been visited by request e.
  ghost predicate AskedUpTo(was: map<Cid, Client>, now: map<Cid, Client>, l: seq<Cid>, e: EtaId, sent: set<Cid>) {
    now == map c | c in was :: if c in l then AskClient(was[c], e, c in sent) else was[c]
  }

  lemma AllAsked(was: map<Cid, Client>, now: map<Cid, Client>, l: seq<Cid>, e: EtaId, sent: set<Cid>)
    requires AskedUpTo(was, now, l, e, sent) && forall c :: c in was ==> c in l
    ensures now == map c | c in was :: AskClient(was[c], e, c in sent)
  {}

  lemma AskedNext(was: map<Cid, Client>, now: map<Cid, Client>, l: seq<Cid>, c: Cid, e: EtaId, sent: set<Cid>)
    requires AskedUpTo(was, now, l, e, sent) && c in was && c !in l
    ensures now[c] == was[c] && AskedUpTo(was, now[c := AskClient(was[c], e, c in sent)], l + [c], e, sent)
  {
    var now' := now[c := AskClient(was[c], e, c in sent)];
    assert now'.Keys == was.Keys;
  }

  function SkippedIn(clients: map<Cid, Client>, l: seq<Cid>): set<Cid> {
    set c | c in l && c in clients && clients[c].listed
  }

  lemma SkippedNext(clients: map<Cid, Client>, l: seq<Cid>, c: Cid)
    requires c !in l && c in clients
    ensures |SkippedIn(clients, l + [c])| == |SkippedIn(clients, l)| + if clients[c].listed then 1 else 0
  {
    if clients[c].listed {
      assert SkippedIn(clients, l + [c]) == SkippedIn(clients, l) + {c};
    } else {
      assert SkippedIn(clients, l + [c]) == SkippedIn(clients, l);
    }
  }

  // The loop comes to the next client of the list.
  lemma NextAsked(was: map<Cid, Client>, now: map<Cid, Client>, l: seq<Cid>, i: nat, e: EtaId, sent: set<Cid>)
    requires Distinct(l) && i < |l| && l[i] in was && AskedUpTo(was, now, l[..i], e, sent)
    ensures l[i] in now && now[l[i]] == was[l[i]]
    ensures AskedUpTo(was, now[l[i] := AskClient(was[l[i]], e, l[i] in sent)], l[..i + 1], e, sent)
    ensures |SkippedIn(was, l[..i + 1])| == |SkippedIn(was, l[..i])| + if was[l[i]].listed then 1 else 0
  {
    assert l[..i + 1] == l[..i] + [l[i]] && l[i] !in l[..i];
    AskedNext(was, now, l[..i], l[i], e, sent);
    SkippedNext(was, l[..i], l[i]);
  }

  lemma SkippedAll(t: Table)
    requires ListOk(t)
    ensures SkippedIn(t.clients, t.list) == Listed(t.clients)
  {}
}
