/**
 Virtual devices of an Iguana cell (cells/iguana/iguana_cell.py): programs ask
 for kinds of device, servers get one instance for each request, and every
 client is given the number of an instance.
 */
module DeviceNumbering {
  import opened Numerals

  type Kind = string
  type Program = string

  /** Instance `number` of a kind: created on a server, or named in a client's environment. */
  datatype Device = Device(owner: Program, kind: Kind, number: nat) {
    /** What both sides call it by. */
    function Name(): string { kind + Decimal(number) }
  }

  type Counts = map<Kind, nat>

  // ---------------------------------------------------------------- what the operations compute

  function CountOf(counts: Counts, kind: Kind): nat {
    if kind in counts then counts[kind] else 0
  }

  /** One more of each kind in the list. */
  function AddAll(counts: Counts, kinds: seq<Kind>): Counts {
    if kinds == [] then counts
    else
      var n := |kinds| - 1;
      var m := AddAll(counts, kinds[..n]);
      m[kinds[n] := CountOf(m, kinds[n]) + 1]
  }

  function ZeroAll(counts: Counts, kinds: seq<Kind>): Counts {
    if kinds == [] then counts
    else
      var n := |kinds| - 1;
      ZeroAll(counts, kinds[..n])[kinds[n] := 0]
  }

  /** The instances of a kind, numbered from zero. */
  function Numbered(owner: Program, kind: Kind, n: nat): seq<Device> {
    if n == 0 then [] else Numbered(owner, kind, n - 1) + [Device(owner, kind, n - 1)]
  }

  /** The instances made for the servers, in the order they were registered. */
  function Created(servers: seq<(Kind, Program)>, counts: Counts): seq<Device> {
    if servers == [] then []
    else
      var n := |servers| - 1;
      Created(servers[..n], counts) + Numbered(servers[n].1, servers[n].0, CountOf(counts, servers[n].0))
  }

  type Request = (Program, Kind)

  function ForOne(prog: Program, kinds: seq<Kind>): seq<Request> {
    if kinds == [] then [] else ForOne(prog, kinds[..|kinds| - 1]) + [(prog, kinds[|kinds| - 1])]
  }

  function ListOf(required: map<Program, seq<Kind>>, prog: Program): seq<Kind> {
    if prog in required then required[prog] else []
  }

  /** The requests of all clients in order. */
  function Requests(clients: seq<Program>, required: map<Program, seq<Kind>>): seq<Request> {
    if clients == [] then []
    else
      var n := |clients| - 1;
      Requests(clients[..n], required) + ForOne(clients[n], ListOf(required, clients[n]))
  }

  function Counted(counter: Counts, requests: seq<Request>): Counts {
    if requests == [] then counter
    else
      var n := |requests| - 1;
      var m := Counted(counter, requests[..n]);
      m[requests[n].1 := CountOf(m, requests[n].1) + 1]
  }

  /** Each request gets the number that its kind's counter has reached. */
  function HandedOut(counter: Counts, requests: seq<Request>): seq<Device> {
    if requests == [] then []
    else
      var n := |requests| - 1;
      var (prog, kind) := requests[n];
      HandedOut(counter, requests[..n]) + [Device(prog, kind, CountOf(Counted(counter, requests[..n]), kind))]
  }

  class Cell {
    var spawn: Counts
    var counter: Counts
    var servers: seq<(Kind, Program)>
    var clients: seq<Program>
    /** The list set last on each program. */
    var required: map<Program, seq<Kind>>
    /** `virt_device` elements added to servers. */
    var created: seq<Device>
    /** Capabilities added to client environments. */
    var handed: seq<Device>

    constructor ()
      ensures spawn == map[] && counter == map[] && servers == [] && clients == []
      ensures required == map[] && created == [] && handed == []
    {
      spawn, counter, servers, clients, required, created, handed := map[], map[], [], [], map[], [], [];
    }

    method RegisterDevice(prog: Program, kind: Kind)
      modifies this`servers
      ensures servers == old(servers) + [(kind, prog)]
    {
      servers := servers + [(kind, prog)];
    }

    method RequireDevices(prog: Program, kinds: seq<Kind>)
      modifies this`required, this`clients, this`spawn, this`counter
      ensures required == old(required)[prog := kinds] && clients == old(clients) + [prog]
      ensures spawn == AddAll(old(spawn), kinds) && counter == ZeroAll(old(counter), kinds)
    {
      required := required[prog := kinds];
      clients := clients + [prog];
      for i := 0 to |kinds|
        invariant required == old(required)[prog := kinds] && clients == old(clients) + [prog]
        invariant spawn == AddAll(old(spawn), kinds[..i]) && counter == ZeroAll(old(counter), kinds[..i])
      {
        var kind := kinds[i];
        assert kinds[..i + 1][..i] == kinds[..i];
        if kind !in spawn {
          spawn := spawn[kind := 1];
        } else {
          spawn := spawn[kind := spawn[kind] + 1];
        }
        counter := counter[kind := 0];
      }
      assert kinds[..|kinds|] == kinds;
    }

    method LayoutDevices()
      modifies this`created, this`handed, this`counter
      ensures created == old(created) + Created(servers, spawn)
      ensures handed == old(handed) + HandedOut(old(counter), Requests(clients, required))
      ensures counter == Counted(old(counter), Requests(clients, required))
    {
      CreateInstances();
      HandOut();
    }

    method CreateInstances()
      modifies this`created
      ensures created == old(created) + Created(servers, spawn)
    {
      for s := 0 to |servers|
        invariant created == old(created) + Created(servers[..s], spawn)
      {
        var (kind, prog) := servers[s];
        ghost var before := created;
        assert servers[..s + 1][..s] == servers[..s];
        if kind in spawn {
          for i := 0 to spawn[kind]
            invariant created == before + Numbered(prog, kind, i)
          {
            created := created + [Device(prog, kind, i)];
          }
        }
      }
      assert servers[..|servers|] == servers;
    }

    method HandOut()
      modifies this`handed, this`counter
      ensures handed == old(handed) + HandedOut(old(counter), Requests(clients, required))
      ensures counter == Counted(old(counter), Requests(clients, required))
    {
      hide HandedOut, Counted;
      NothingHanded(old(counter));
      for c := 0 to |clients|
        invariant handed == old(handed) + HandedOut(old(counter), Requests(clients[..c], required))
        invariant counter == Counted(old(counter), Requests(clients[..c], required))
      {
        var prog := clients[c];
        assert clients[..c + 1][..c] == clients[..c];
        HandOutTo(prog, ListOf(required, prog), old(handed), old(counter), Requests(clients[..c], required));
      }
      assert clients[..|clients|] == clients;
    }

    /** Serves one client, when `done` has been served from the start. */
    method HandOutTo(
      prog: Program, kinds: seq<Kind>, ghost handed0: seq<Device>, ghost counter0: Counts, ghost done: seq<Request>)
      requires handed == handed0 + HandedOut(counter0, done) && counter == Counted(counter0, done)
      modifies this`handed, this`counter
      ensures handed == handed0 + HandedOut(counter0, done + ForOne(prog, kinds))
      ensures counter == Counted(counter0, done + ForOne(prog, kinds))
    {
      hide HandedOut, Counted;
      assert done + [] == done;
      for j := 0 to |kinds|
        invariant handed == handed0 + HandedOut(counter0, done + ForOne(prog, kinds[..j]))
        invariant counter == Counted(counter0, done + ForOne(prog, kinds[..j]))
      {
        NextHanded(counter0, done, prog, kinds, j);
        var kind := kinds[j];
        handed := handed + [Device(prog, kind, CountOf(counter, kind))];
        counter := counter[kind := CountOf(counter, kind) + 1];
      }
      assert kinds[..|kinds|] == kinds;
    }
  }

  lemma NothingHanded(counter: Counts)
    ensures HandedOut(counter, []) == [] && Counted(counter, []) == counter
  {}

  lemma OneMore(done: seq<Request>, prog: Program, kinds: seq<Kind>, j: nat)
    requires j < |kinds|
    ensures var r := done + ForOne(prog, kinds[..j + 1]);
      r != [] && r[..|r| - 1] == done + ForOne(prog, kinds[..j]) && r[|r| - 1] == (prog, kinds[j])
  {
    assert kinds[..j + 1][..j] == kinds[..j];
  }

  /** One turn of the loop over a client's list. */
  lemma NextHanded(counter: Counts, done: seq<Request>, prog: Program, kinds: seq<Kind>, j: nat)
    requires j < |kinds|
    ensures var r, r', kind := done + ForOne(prog, kinds[..j]), done + ForOne(prog, kinds[..j + 1]), kinds[j];
      var m := Counted(counter, r);
      && HandedOut(counter, r') == HandedOut(counter, r) + [Device(prog, kind, CountOf(m, kind))]
      && Counted(counter, r') == m[kind := CountOf(m, kind) + 1]
  {
    hide ForOne;
    OneMore(done, prog, kinds, j);
  }

  // ---------------------------------------------------------------- a cell's calls

  /** One call of `require_devices`. */
  datatype Call = Call(prog: Program, kinds: seq<Kind>)

  function Clients(calls: seq<Call>): seq<Program> {
    if calls == [] then [] else Clients(calls[..|calls| - 1]) + [calls[|calls| - 1].prog]
  }

  function Required(calls: seq<Call>): map<Program, seq<Kind>> {
    if calls == [] then map[]
    else Required(calls[..|calls| - 1])[calls[|calls| - 1].prog := calls[|calls| - 1].kinds]
  }

  function Spawned(calls: seq<Call>): Counts {
    if calls == [] then map[] else AddAll(Spawned(calls[..|calls| - 1]), calls[|calls| - 1].kinds)
  }

  function Zeroed(calls: seq<Call>): Counts {
    if calls == [] then map[] else ZeroAll(Zeroed(calls[..|calls| - 1]), calls[|calls| - 1].kinds)
  }

  /** The numbers given out for one kind, in order. */
  function NumbersOf(devices: seq<Device>, kind: Kind): seq<nat> {
    if devices == [] then []
    else
      var n := |devices| - 1;
      NumbersOf(devices[..n], kind) + if devices[n].kind == kind then [devices[n].number] else []
  }

  function UpTo(n: nat): seq<nat> {
    if n == 0 then [] else UpTo(n - 1) + [n - 1]
  }

  /** How many requests are made for a kind. */
  function Wanted(requests: seq<Request>, kind: Kind): nat {
    if requests == [] then 0
    else Wanted(requests[..|requests| - 1], kind) + if requests[|requests| - 1].1 == kind then 1 else 0
  }

  /** What a cell hands out when it is laid out after the calls. */
  function Handed(calls: seq<Call>): seq<Device> {
    HandedOut(Zeroed(calls), Requests(Clients(calls), Required(calls)))
  }

  lemma NoCalls()
    ensures Clients([]) == [] && Required([]) == map[] && Spawned([]) == map[] && Zeroed([]) == map[]
  {}

  lemma OneMoreCall(calls: seq<Call>, i: nat)
    requires i < |calls|
    ensures var was, now, call := calls[..i], calls[..i + 1], calls[i];
      && Clients(now) == Clients(was) + [call.prog] && Required(now) == Required(was)[call.prog := call.kinds]
      && Spawned(now) == AddAll(Spawned(was), call.kinds) && Zeroed(now) == ZeroAll(Zeroed(was), call.kinds)
  {
    assert calls[..i + 1][..i] == calls[..i];
  }

  /** A cell with the servers and the calls, laid out. */
  method LayOut(calls: seq<Call>, servers: seq<(Kind, Program)>) returns (created: seq<Device>, handed: seq<Device>)
    ensures created == Created(servers, Spawned(calls)) && handed == Handed(calls)
  {
    hide AddAll, ZeroAll, HandedOut, Counted, Requests, Created, Clients, Required, Spawned, Zeroed;
    NoCalls();
    var cell := new Cell();
    for i := 0 to |calls|
      invariant fresh(cell) && cell.servers == [] && cell.created == [] && cell.handed == []
      invariant cell.clients == Clients(calls[..i]) && cell.required == Required(calls[..i])
      invariant cell.spawn == Spawned(calls[..i]) && cell.counter == Zeroed(calls[..i])
    {
      OneMoreCall(calls, i);
      cell.RequireDevices(calls[i].prog, calls[i].kinds);
    }
    assert calls[..|calls|] == calls;
    for i := 0 to |servers|
      invariant fresh(cell) && cell.servers == servers[..i] && cell.created == [] && cell.handed == []
      invariant cell.clients == Clients(calls) && cell.required == Required(calls)
      invariant cell.spawn == Spawned(calls) && cell.counter == Zeroed(calls)
    {
      cell.RegisterDevice(servers[i].1, servers[i].0);
    }
    assert servers[..|servers|] == servers;
    cell.LayoutDevices();
    assert [] + Created(servers, Spawned(calls)) == Created(servers, Spawned(calls));
    assert [] + Handed(calls) == Handed(calls);
    created, handed := cell.created, cell.handed;
  }

  /** For every kind the numbers handed out are 0, 1, 2 and so on, each exactly once, and the counter ends past them. */
  lemma NumbersRunUp(calls: seq<Call>, kind: Kind)
    ensures var requests := Requests(Clients(calls), Required(calls));
      && NumbersOf(Handed(calls), kind) == UpTo(Wanted(requests, kind))
      && CountOf(Counted(Zeroed(calls), requests), kind) == Wanted(requests, kind)
  {
    ZeroedIsZero(calls, kind);
    NumbersFromZero(Zeroed(calls), Requests(Clients(calls), Required(calls)), kind);
  }

  lemma {:induction false} NumbersFromZero(counter: Counts, requests: seq<Request>, kind: Kind)
    requires CountOf(counter, kind) == 0
    ensures NumbersOf(HandedOut(counter, requests), kind) == UpTo(Wanted(requests, kind))
    ensures CountOf(Counted(counter, requests), kind) == Wanted(requests, kind)
  {
    if requests != [] {
      var n := |requests| - 1;
      var h := HandedOut(counter, requests);
      NumbersFromZero(counter, requests[..n], kind);
      assert h[..|h| - 1] == HandedOut(counter, requests[..n]);
      if requests[n].1 != kind {
        assert NumbersOf(h, kind) == NumbersOf(h[..|h| - 1], kind) + [];
      }
    }
  }

  lemma {:induction false} ZeroedIsZero(calls: seq<Call>, kind: Kind)
    ensures CountOf(Zeroed(calls), kind) == 0
  {
    if calls != [] {
      ZeroedIsZero(calls[..|calls| - 1], kind);
      ZeroAllKeepsZero(Zeroed(calls[..|calls| - 1]), calls[|calls| - 1].kinds, kind);
    }
  }

  lemma {:induction false} ZeroAllKeepsZero(counts: Counts, kinds: seq<Kind>, kind: Kind)
    requires CountOf(counts, kind) == 0
    ensures CountOf(ZeroAll(counts, kinds), kind) == 0
  {
    if kinds != [] { ZeroAllKeepsZero(counts, kinds[..|kinds| - 1], kind); }
  }

  // ---------------------------------------------------------------- against the instances created

  /** All requests as they were called for. */
  function Called(calls: seq<Call>): seq<Request> {
    if calls == [] then []
    else Called(calls[..|calls| - 1]) + ForOne(calls[|calls| - 1].prog, calls[|calls| - 1].kinds)
  }

  lemma {:induction false} SpawnedIsCalled(calls: seq<Call>, kind: Kind)
    ensures CountOf(Spawned(calls), kind) == Wanted(Called(calls), kind)
  {
    if calls != [] {
      var n := |calls| - 1;
      SpawnedIsCalled(calls[..n], kind);
      AddAllAdds(Spawned(calls[..n]), calls[n].kinds, Called(calls[..n]), calls[n].prog, kind);
    }
  }

  lemma {:induction false} AddAllAdds(counts: Counts, kinds: seq<Kind>, done: seq<Request>, prog: Program, kind: Kind)
    requires CountOf(counts, kind) == Wanted(done, kind)
    ensures CountOf(AddAll(counts, kinds), kind) == Wanted(done + ForOne(prog, kinds), kind)
  {
    if kinds == [] {
      assert done + ForOne(prog, kinds) == done;
    } else {
      var n := |kinds| - 1;
      AddAllAdds(counts, kinds[..n], done, prog, kind);
      assert kinds[..n + 1] == kinds;
      OneMore(done, prog, kinds, n);
    }
  }

  /** Every instance is on a server of its kind, once for each time that server was registered, and numbered below
      the kind's count; and every such number has its instance there. */
  lemma {:induction false} CreatedOnServers(servers: seq<(Kind, Program)>, counts: Counts, d: Device)
    ensures multiset(Created(servers, counts))[d] ==
      if d.number < CountOf(counts, d.kind) then multiset(servers)[(d.kind, d.owner)] else 0
  {
    hide Numbered, CountOf;
    if servers != [] {
      var n := |servers| - 1;
      var (kind, prog) := servers[n];
      CreatedOnServers(servers[..n], counts, d);
      NumberedOnce(prog, kind, CountOf(counts, kind), d);
      CountsAdd(servers[..n], [servers[n]], (d.kind, d.owner));
      CountsAdd(Created(servers[..n], counts), Numbered(prog, kind, CountOf(counts, kind)), d);
      assert servers == servers[..n] + [servers[n]];
    }
  }

  lemma {:induction false} NumberedOnce(owner: Program, kind: Kind, n: nat, d: Device)
    ensures multiset(Numbered(owner, kind, n))[d] == if d.owner == owner && d.kind == kind && d.number < n then 1 else 0
  {
    if n > 0 { NumberedOnce(owner, kind, n - 1, d); }
  }

  /** A program asks for a kind as often as its last list has it, once over for each call it made. */
  lemma {:induction false} RequestsOfClients(
    clients: seq<Program>, required: map<Program, seq<Kind>>, prog: Program, kind: Kind)
    ensures multiset(Requests(clients, required))[(prog, kind)] ==
      multiset(clients)[prog] * multiset(ListOf(required, prog))[kind]
  {
    hide Requests, ForOne, ListOf;
    var k := multiset(ListOf(required, prog))[kind];
    if clients == [] {
      NoRequests(required, k);
    } else {
      var n := |clients| - 1;
      var p := clients[n];
      LastClient(clients, required);
      RequestsOfClients(clients[..n], required, prog, kind);
      ForOneOnce(p, ListOf(required, p), prog, kind);
      CountsAdd(clients[..n], [p], prog);
      CountsAdd(Requests(clients[..n], required), ForOne(p, ListOf(required, p)), (prog, kind));
      assert clients == clients[..n] + [p];
      OnceMore(multiset(clients[..n])[prog], k);
    }
  }

  lemma NoRequests(required: map<Program, seq<Kind>>, k: nat)
    ensures Requests([], required) == [] && 0 * k == 0
  {}

  lemma LastClient(clients: seq<Program>, required: map<Program, seq<Kind>>)
    requires clients != []
    ensures var n := |clients| - 1;
      Requests(clients, required) == Requests(clients[..n], required) + ForOne(clients[n], ListOf(required, clients[n]))
  {}

  lemma CountsAdd<T>(x: seq<T>, y: seq<T>, z: T)
    ensures multiset(x + y)[z] == multiset(x)[z] + multiset(y)[z]
  {}

  lemma OnceMore(m: nat, k: nat)
    ensures (m + 1) * k == m * k + k
  {}

  lemma {:induction false} ForOneOnce(owner: Program, kinds: seq<Kind>, prog: Program, kind: Kind)
    ensures multiset(ForOne(owner, kinds))[(prog, kind)] == if owner == prog then multiset(kinds)[kind] else 0
  {
    if kinds != [] {
      var n := |kinds| - 1;
      ForOneOnce(owner, kinds[..n], prog, kind);
      assert kinds == kinds[..n] + [kinds[n]];
    }
  }

  ghost predicate OneServerEach(servers: seq<(Kind, Program)>) {
    forall i, j | 0 <= i < j < |servers| :: servers[i].0 != servers[j].0
  }

  ghost predicate Served(servers: seq<(Kind, Program)>, kind: Kind) {
    exists i | 0 <= i < |servers| :: servers[i].0 == kind
  }

  /** The instances made of a kind with one server are numbered from zero up to its count. */
  lemma {:induction false} CreatedNumbers(servers: seq<(Kind, Program)>, counts: Counts, kind: Kind)
    requires OneServerEach(servers)
    ensures NumbersOf(Created(servers, counts), kind) == if Served(servers, kind) then UpTo(CountOf(counts, kind)) else []
  {
    hide NumbersOf, UpTo, Numbered, Served, OneServerEach;
    if servers == [] {
      NoneServed(kind);
    } else {
      var n := |servers| - 1;
      LastServer(servers, kind);
      CreatedNumbers(servers[..n], counts, kind);
      NumbersOfNumbered(Created(servers[..n], counts), servers[n].1, servers[n].0, CountOf(counts, servers[n].0), kind);
    }
  }

  lemma NoneServed(kind: Kind)
    ensures !Served([], kind) && NumbersOf([], kind) == []
  {}

  lemma LastServer(servers: seq<(Kind, Program)>, kind: Kind)
    requires OneServerEach(servers) && servers != []
    ensures var n := |servers| - 1;
      && OneServerEach(servers[..n])
      && (Served(servers, kind) <==> Served(servers[..n], kind) || servers[n].0 == kind)
      && !(Served(servers[..n], kind) && servers[n].0 == kind)
  {
    var n := |servers| - 1;
    if i :| 0 <= i < |servers| && servers[i].0 == kind { assert i == n || servers[..n][i].0 == kind; }
    if i :| 0 <= i < n && servers[..n][i].0 == kind { assert servers[i].0 == kind; }
  }

  lemma {:induction false} NumbersOfNumbered(before: seq<Device>, owner: Program, kind: Kind, n: nat, other: Kind)
    ensures NumbersOf(before + Numbered(owner, kind, n), other) ==
      NumbersOf(before, other) + if kind == other then UpTo(n) else []
  {
    hide NumbersOf;
    var all := before + Numbered(owner, kind, n);
    if n == 0 {
      assert all == before && NumbersOf(before, other) + [] == NumbersOf(before, other);
    } else {
      NumbersOfNumbered(before, owner, kind, n - 1, other);
      OneMoreNumber(before + Numbered(owner, kind, n - 1), Device(owner, kind, n - 1), other);
      assert all == before + Numbered(owner, kind, n - 1) + [Device(owner, kind, n - 1)];
      if kind == other {
        assert NumbersOf(before, other) + UpTo(n - 1) + [n - 1] == NumbersOf(before, other) + UpTo(n);
      }
    }
  }

  lemma OneMoreNumber(devices: seq<Device>, d: Device, kind: Kind)
    ensures NumbersOf(devices + [d], kind) == NumbersOf(devices, kind) + if d.kind == kind then [d.number] else []
  {
    assert (devices + [d])[..|devices|] == devices;
  }

  /** Every instance created of a kind is handed out, exactly once, and no other number is, exactly when the
      programs' last lists ask for the kind as often as all calls together did. */
  lemma MatchIff(calls: seq<Call>, servers: seq<(Kind, Program)>, kind: Kind)
    requires OneServerEach(servers) && Served(servers, kind)
    ensures NumbersOf(Handed(calls), kind) == NumbersOf(Created(servers, Spawned(calls)), kind) <==>
      Wanted(Requests(Clients(calls), Required(calls)), kind) == Wanted(Called(calls), kind)
  {
    NumbersRunUp(calls, kind);
    CreatedNumbers(servers, Spawned(calls), kind);
    SpawnedIsCalled(calls, kind);
    UpToLength(Wanted(Requests(Clients(calls), Required(calls)), kind));
    UpToLength(Wanted(Called(calls), kind));
  }

  lemma {:induction false} UpToLength(n: nat)
    ensures |UpTo(n)| == n && forall i | 0 <= i < n :: UpTo(n)[i] == i
  {
    if n > 0 { UpToLength(n - 1); }
  }

  ghost predicate OncePerProgram(calls: seq<Call>) {
    forall i, j | 0 <= i < j < |calls| :: calls[i].prog != calls[j].prog
  }

  /** So they match for every kind when no program calls twice. */
  lemma OnceEachMatches(calls: seq<Call>, servers: seq<(Kind, Program)>, kind: Kind)
    requires OncePerProgram(calls)
    requires OneServerEach(servers) && Served(servers, kind)
    ensures NumbersOf(Handed(calls), kind) == NumbersOf(Created(servers, Spawned(calls)), kind)
      == UpTo(CountOf(Spawned(calls), kind))
  {
    MatchIff(calls, servers, kind);
    RequestsAreCalled(calls);
    CreatedNumbers(servers, Spawned(calls), kind);
  }

  lemma {:induction false} RequestsAreCalled(calls: seq<Call>)
    requires OncePerProgram(calls)
    ensures Requests(Clients(calls), Required(calls)) == Called(calls)
    ensures |Clients(calls)| == |calls| && forall i | 0 <= i < |calls| :: Clients(calls)[i] == calls[i].prog
  {
    if calls != [] {
      var n := |calls| - 1;
      RequestsAreCalled(calls[..n]);
      var clients := Clients(calls);
      assert clients[..n] == Clients(calls[..n]);
      OtherLists(clients[..n], Required(calls[..n]), calls[n].prog, calls[n].kinds);
    }
  }

  lemma {:induction false} OtherLists(
    clients: seq<Program>, required: map<Program, seq<Kind>>, prog: Program, kinds: seq<Kind>)
    requires forall i | 0 <= i < |clients| :: clients[i] != prog
    ensures Requests(clients, required[prog := kinds]) == Requests(clients, required)
  {
    if clients != [] { OtherLists(clients[..|clients| - 1], required, prog, kinds); }
  }
}
