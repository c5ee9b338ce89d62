/**
  The choice of a monerod server in applications/tari_merge_mining_proxy/src/proxy.rs: the server in
  use is kept until a request fails, and then every configured server is probed, twice at most.

  Requests run concurrently over two shared fields, each behind its own lock, and wait for probes and
  answers between their accesses. The model is a step function over any number of requests; a step
  that cannot be taken leaves the state alone. The code as written is shown to take these steps.
*/
module Monerod {
  import opened Wrappers

  datatype ServerError = UrlParseError | ServersUnavailable | RequestFailed

  /** The first position of x, or 0 when it is not there. */
  function Position(list: seq<string>, x: string): (i: nat)
    ensures x in list ==> i < |list| && list[i] == x && x !in list[..i]
    ensures x !in list ==> i == 0
  {
    if x !in list then 0 else if list[0] == x then 0 else 1 + Position(list[1..], x)
  }

  /** One pass over the servers, from the last assigned one round to the one before it. */
  function Pass(configured: seq<string>, lastAssigned: Option<string>): (order: seq<string>)
    ensures multiset(order) == multiset(configured)
    ensures lastAssigned.Some? && lastAssigned.value in configured ==> order[0] == lastAssigned.value
  {
    var pos := Position(configured, if lastAssigned.Some? then lastAssigned.value else "");
    assert configured == configured[..pos] + configured[pos..];
    configured[pos..] + configured[..pos]
  }

  /** The place a pass starts at: the first of the last assigned server, or of "" without one, or the front. */
  predicate StartsAt(configured: seq<string>, lastAssigned: Option<string>, pos: int) {
    var x := if lastAssigned.Some? then lastAssigned.value else "";
    if x in configured then 0 <= pos < |configured| && configured[pos] == x && x !in configured[..pos] else pos == 0
  }

  /** A pass is the configured list from that place on and round to it. */
  lemma PassRotates(configured: seq<string>, lastAssigned: Option<string>, pos: nat)
    requires StartsAt(configured, lastAssigned, pos)
    ensures |Pass(configured, lastAssigned)| == |configured|
    ensures forall k :: 0 <= k < |configured| ==>
              Pass(configured, lastAssigned)[k] == configured[(pos + k) % |configured|]
  {
    FirstPosition(configured, if lastAssigned.Some? then lastAssigned.value else "", pos);
    var n := |configured|;
    forall k | 0 <= k < n ensures Pass(configured, lastAssigned)[k] == configured[(pos + k) % n] {
      Wraps(pos + k, n);
    }
  }

  lemma FirstPosition(list: seq<string>, x: string, pos: nat)
    requires if x in list then pos < |list| && list[pos] == x && x !in list[..pos] else pos == 0
    ensures Position(list, x) == pos
  {
    var i := Position(list, x);
    assert forall k :: 0 <= k < pos ==> list[..pos][k] == list[k];
    assert x in list ==> forall k :: 0 <= k < i ==> list[..i][k] == list[k];
  }

  lemma Wraps(k: nat, n: nat)
    requires k < 2 * n
    ensures k % n == if k < n then k else k - n
  {
  }

  /** What probing the servers in order comes to: the server that answered, if one did, after n probes. */
  predicate Probed(servers: seq<string>, path: string, parses: string -> bool, up: nat -> bool,
                   r: Result<string, ServerError>, n: nat)
  {
    && n <= |servers|
    && (forall k :: 0 <= k < n ==> parses(servers[k] + path))
    && match r
       case Ok(server) =>
         0 < n && server == servers[n - 1] && up(n - 1) && forall k :: 0 <= k < n - 1 ==> !up(k)
       case Err(e) =>
         && (forall k :: 0 <= k < n ==> !up(k))
         && (if n == |servers| then e == ServersUnavailable else e == UrlParseError && !parses(servers[n] + path))
  }

  /** `parses` says which addresses are well-formed, `up(k)` whether the k-th probe is answered. */
  method Probe(servers: seq<string>, path: string, parses: string -> bool, up: nat -> bool)
    returns (r: Result<string, ServerError>, n: nat)
    ensures Probed(servers, path, parses, up, r, n)
  {
    n := 0;
    while n < |servers|
      invariant n <= |servers|
      invariant forall k :: 0 <= k < n ==> parses(servers[k] + path) && !up(k)
    {
      if !parses(servers[n] + path) {
        return Err(UrlParseError), n;
      }
      n := n + 1;
      if up(n - 1) {
        return Ok(servers[n - 1]), n;
      }
    }
    r := Err(ServersUnavailable);
  }

  // ---------------------------------------------------------------------------------------------
  // Requests as steps

  datatype Config = Config(configured: seq<string>, parses: string -> bool)

  /** A probe and whether it was answered. */
  datatype Asked = Asked(server: string, up: bool)

  datatype Phase =
    | Started
    | Probing
    | Forwarding(server: string)
    | Failing(error: ServerError)
    | Done(r: Result<string, ServerError>)

  /** `read` is what the request read as the last assigned server, once it has. */
  datatype Request = Request(path: string, read: Option<Option<string>>, asked: seq<Asked>, phase: Phase)

  datatype State = State(current: Option<string>, lastAssigned: Option<string>, requests: map<nat, Request>)

  /** The two assignments after an answered probe are one step: the first lock is held until the second is done. */
  datatype Step =
    | Arrive(id: nat, path: string)
    | ReadLast(id: nat)
    | Ask(id: nat, up: bool)
    | Answer(id: nat, ok: bool)
    | GiveUp(id: nat)

  const INIT := State(None, None, map[])

  /** The servers in the order a request asks them: one pass, and the same pass again. */
  function Order(c: Config, read: Option<string>): seq<string> {
    Pass(c.configured, read) + Pass(c.configured, read)
  }

  /** The next probe of a request, or its end when no server is left or an address is malformed. */
  function AskRequest(c: Config, q: Request, up: bool): Request
    requires q.read.Some?
  {
    var order, n := Order(c, q.read.value), |q.asked|;
    if n >= |order| then q.(phase := Failing(ServersUnavailable))
    else if !c.parses(order[n] + q.path) then q.(phase := Failing(UrlParseError))
    else q.(asked := q.asked + [Asked(order[n], up)], phase := if up then Forwarding(order[n]) else q.phase)
  }

  function AskNext(c: Config, s: State, id: nat, up: bool): State
    requires id in s.requests && s.requests[id].read.Some? && s.requests[id].phase.Probing?
  {
    var q := AskRequest(c, s.requests[id], up);
    if q.phase.Forwarding? then State(Some(q.phase.server), Some(q.phase.server), s.requests[id := q])
    else s.(requests := s.requests[id := q])
  }

  function Next(c: Config, s: State, step: Step): State {
    match step
    case Arrive(id, path) =>
      if id in s.requests then s
      else
        var phase :=
          if s.current.None? then Started
          else if c.parses(s.current.value + path) then Forwarding(s.current.value)
          else Failing(UrlParseError);
        s.(requests := s.requests[id := Request(path, None, [], phase)])
    case ReadLast(id) =>
      if id !in s.requests || !s.requests[id].phase.Started? then s
      else s.(requests := s.requests[id := s.requests[id].(read := Some(s.lastAssigned), phase := Probing)])
    case Ask(id, up) =>
      if id !in s.requests || !s.requests[id].phase.Probing? || s.requests[id].read.None? then s
      else AskNext(c, s, id, up)
    case Answer(id, ok) =>
      if id !in s.requests || !s.requests[id].phase.Forwarding? then s
      else
        var q := s.requests[id];
        var phase := if ok then Done(Ok(q.phase.server + q.path)) else Failing(RequestFailed);
        s.(requests := s.requests[id := q.(phase := phase)])
    case GiveUp(id) =>
      if id !in s.requests || !s.requests[id].phase.Failing? then s
      else
        var q := s.requests[id];
        s.(current := None, requests := s.requests[id := q.(phase := Done(Err(q.phase.error)))])
  }

  function Exec(c: Config, s: State, steps: seq<Step>): State
    decreases |steps|
  {
    if steps == [] then s else Exec(c, Next(c, s, steps[0]), steps[1..])
  }

  // ---------------------------------------------------------------------------------------------
  // Every interleaving

  /** The current server, if any, is the last assigned one, and that one is configured. */
  predicate Consistent(configured: seq<string>, current: Option<string>, lastAssigned: Option<string>) {
    && (current.Some? ==> current == lastAssigned)
    && (lastAssigned.Some? ==> lastAssigned.value in configured)
  }

  /** Probes so far: in the request's order, of well-formed addresses, all but the last unanswered. */
  predicate AskedInOrder(c: Config, q: Request) {
    q.asked != [] ==>
      && q.read.Some? && |q.asked| <= |Order(c, q.read.value)|
      && (forall k :: 0 <= k < |q.asked| ==>
            q.asked[k].server == Order(c, q.read.value)[k] && c.parses(q.asked[k].server + q.path))
      && (forall k :: 0 <= k < |q.asked| - 1 ==> !q.asked[k].up)
  }

  predicate Answered(q: Request) {
    q.asked != [] && q.asked[|q.asked| - 1].up
  }

  /** Why a request fails. */
  predicate Justified(c: Config, q: Request, e: ServerError) {
    match e
    case ServersUnavailable => q.read.Some? && |q.asked| == |Order(c, q.read.value)| && !Answered(q)
    case UrlParseError =>
      if q.read.None? then exists server :: server in c.configured && !c.parses(server + q.path)
      else
        |q.asked| < |Order(c, q.read.value)| && !c.parses(Order(c, q.read.value)[|q.asked|] + q.path) && !Answered(q)
    case RequestFailed => q.read.Some? ==> Answered(q)
  }

  predicate RequestInv(c: Config, q: Request) {
    && AskedInOrder(c, q)
    && match q.phase
       case Started => q.read.None? && q.asked == []
       case Probing => q.read.Some? && !Answered(q)
       case Forwarding(server) =>
         && server in c.configured && c.parses(server + q.path)
         && (q.read.Some? ==> Answered(q) && server == q.asked[|q.asked| - 1].server)
       case Failing(e) => Justified(c, q, e)
       case Done(Err(e)) => Justified(c, q, e)
       case Done(Ok(url)) =>
         && c.parses(url)
         && (exists server :: server in c.configured && url == server + q.path)
         && (q.read.Some? ==> Answered(q) && url == q.asked[|q.asked| - 1].server + q.path)
  }

  predicate Inv(c: Config, s: State) {
    && Consistent(c.configured, s.current, s.lastAssigned)
    && forall id :: id in s.requests ==> RequestInv(c, s.requests[id])
  }

  lemma AskedGrows(c: Config, q: Request, up: bool)
    requires AskedInOrder(c, q) && q.read.Some? && !Answered(q) && |q.asked| < |Order(c, q.read.value)|
    requires c.parses(Order(c, q.read.value)[|q.asked|] + q.path)
    ensures AskedInOrder(c, q.(asked := q.asked + [Asked(Order(c, q.read.value)[|q.asked|], up)]))
  {
    hide Order;
  }

  lemma AskKeepsRequest(c: Config, q: Request, up: bool)
    requires RequestInv(c, q) && q.phase.Probing?
    ensures RequestInv(c, AskRequest(c, q, up))
    ensures var phase := AskRequest(c, q, up).phase; phase.Forwarding? ==> phase.server in c.configured
  {
    hide Order, AskedInOrder;
    var order, n := Order(c, q.read.value), |q.asked|;
    assert n <= |order| by { AskedBound(c, q); }
    assert AskRequest(c, q, up).asked == q.asked ==> AskedInOrder(c, AskRequest(c, q, up)) by { SameAsked(c, q, up); }
    if n < |order| {
      assert order[n] in c.configured by { Configured(c, q.read.value, n); }
      if c.parses(order[n] + q.path) {
        AskedGrows(c, q, up);
        PhaseAside(c, q.(asked := q.asked + [Asked(order[n], up)]), AskRequest(c, q, up).phase);
      }
    }
  }

  lemma AskedBound(c: Config, q: Request)
    requires AskedInOrder(c, q) && q.read.Some?
    ensures |q.asked| <= |Order(c, q.read.value)|
  {
  }

  lemma SameAsked(c: Config, q: Request, up: bool)
    requires AskedInOrder(c, q) && q.read.Some?
    ensures AskRequest(c, q, up).asked == q.asked ==> AskedInOrder(c, AskRequest(c, q, up))
  {
    hide Order;
  }

  lemma PhaseAside(c: Config, q: Request, phase: Phase)
    requires AskedInOrder(c, q)
    ensures AskedInOrder(c, q.(phase := phase))
  {
  }

  lemma Configured(c: Config, x: Option<string>, n: nat)
    requires n < |Order(c, x)|
    ensures Order(c, x)[n] in c.configured
  {
    InPass(c.configured, x, n);
  }

  lemma StepKeepsInv(c: Config, s: State, step: Step)
    requires Inv(c, s)
    ensures Inv(c, Next(c, s, step))
  {
    hide Order, AskRequest, AskedInOrder;
    if step.id in s.requests {
      var q := s.requests[step.id];
      assert RequestInv(c, q);
      if step.Ask? && q.phase.Probing? {
        AskKeepsRequest(c, q, step.up);
      } else {
        var q' := Next(c, s, step).requests[step.id];
        PhaseAside(c, q, q'.phase);
        if step.ReadLast? && q.phase.Started? {
          NothingAsked(c, q');
        }
      }
    } else if step.Arrive? {
      NothingAsked(c, Next(c, s, step).requests[step.id]);
    }
  }

  lemma NothingAsked(c: Config, q: Request)
    requires q.asked == []
    ensures AskedInOrder(c, q)
  {
  }

  lemma {:induction false} ExecKeepsInv(c: Config, s: State, steps: seq<Step>)
    requires Inv(c, s)
    ensures Inv(c, Exec(c, s, steps))
    decreases |steps|
  {
    hide Inv, Next;
    if steps != [] {
      StepKeepsInv(c, s, steps[0]);
      ExecKeepsInv(c, Next(c, s, steps[0]), steps[1..]);
    }
  }

  /** In every interleaving: the fields are consistent and every request is where it is for a reason. */
  lemma ReachableInv(c: Config, steps: seq<Step>)
    ensures Inv(c, Exec(c, INIT, steps))
  {
    ExecKeepsInv(c, INIT, steps);
  }

  lemma {:induction false} ExecConcat(c: Config, s: State, a: seq<Step>, b: seq<Step>)
    ensures Exec(c, s, a + b) == Exec(c, Exec(c, s, a), b)
    decreases |a|
  {
    hide Next;
    if a == [] {
      assert a + b == b;
    } else {
      assert (a + b)[1..] == a[1..] + b;
      ExecConcat(c, Next(c, s, a[0]), a[1..], b);
    }
  }

  /** After n steps the request read the last assigned server, and it was x. */
  predicate ReadAt(c: Config, steps: seq<Step>, id: nat, x: Option<string>, n: nat) {
    n < |steps| && steps[n] == ReadLast(id) && Exec(c, INIT, steps[..n]).lastAssigned == x
  }

  lemma ReadStep(c: Config, s: State, step: Step, id: nat, x: Option<string>)
    requires id in Next(c, s, step).requests && Next(c, s, step).requests[id].read == Some(x)
    ensures (step == ReadLast(id) && s.lastAssigned == x) || (id in s.requests && s.requests[id].read == Some(x))
  {
    hide Order;
  }

  lemma LastStep(c: Config, s: State, steps: seq<Step>)
    requires steps != []
    ensures var n := |steps| - 1; Exec(c, s, steps) == Next(c, Exec(c, s, steps[..n]), steps[n])
  {
    hide Next, Exec;
    var n := |steps| - 1;
    assert steps == steps[..n] + [steps[n]];
    ExecConcat(c, s, steps[..n], [steps[n]]);
    One(c, Exec(c, s, steps[..n]), steps[n]);
  }

  lemma One(c: Config, s: State, step: Step)
    ensures Exec(c, s, [step]) == Next(c, s, step)
  {
    hide Next;
  }

  /** What a request took for the last assigned server was that, at the moment it read it. */
  lemma {:induction false} WasLastAssigned(c: Config, steps: seq<Step>, id: nat, x: Option<string>) returns (n: nat)
    requires id in Exec(c, INIT, steps).requests && Exec(c, INIT, steps).requests[id].read == Some(x)
    ensures ReadAt(c, steps, id, x, n)
  {
    hide Next, Exec;
    assert Exec(c, INIT, []) == INIT by { Nothing(c, INIT); }
    var m := |steps| - 1;
    var s := Exec(c, INIT, steps[..m]);
    LastStep(c, INIT, steps);
    ReadStep(c, s, steps[m], id, x);
    if steps[m] == ReadLast(id) && s.lastAssigned == x {
      n := m;
    } else {
      n := WasLastAssigned(c, steps[..m], id, x);
      assert steps[..m][..n] == steps[..n];
    }
  }

  lemma Nothing(c: Config, s: State)
    ensures Exec(c, s, []) == s
  {
  }

  function Servers(asked: seq<Asked>): seq<string> {
    seq(|asked|, k requires 0 <= k < |asked| => asked[k].server)
  }

  /** The configured servers, from the starting place round to it, and the same again. */
  ghost predicate TwiceAround(configured: seq<string>, read: Option<string>, asked: seq<Asked>) {
    var n := |configured|;
    && |asked| == 2 * n
    && forall pos, k :: StartsAt(configured, read, pos) && 0 <= k < n ==>
         asked[k].server == configured[(pos + k) % n] && asked[n + k].server == asked[k].server
  }

  lemma GoesRoundTwice(configured: seq<string>, x: Option<string>, asked: seq<Asked>)
    requires Servers(asked) == Pass(configured, x) + Pass(configured, x)
    ensures TwiceAround(configured, x, asked)
  {
    hide Pass;
    var n, pass := |configured|, Pass(configured, x);
    Rotated(configured, x);
    assert |asked| == |Servers(asked)|;
    forall pos, k | StartsAt(configured, x, pos) && 0 <= k < n
      ensures asked[k].server == configured[(pos + k) % n] && asked[n + k].server == asked[k].server
    {
      PassRotates(configured, x, pos);
      assert Servers(asked)[k] == asked[k].server && Servers(asked)[n + k] == asked[n + k].server;
    }
  }

  /**
    In every interleaving, a request that ends with `ServersUnavailable` asked every configured entry
    exactly twice, in configured order rotated to the server that was last assigned when it looked,
    and none answered.
  */
  lemma UnavailableAskedTwice(c: Config, steps: seq<Step>, id: nat) returns (n: nat)
    requires id in Exec(c, INIT, steps).requests
    requires Exec(c, INIT, steps).requests[id].phase == Done(Err(ServersUnavailable))
    ensures var q := Exec(c, INIT, steps).requests[id];
            && q.read.Some? && ReadAt(c, steps, id, q.read.value, n)
            && Servers(q.asked) == Pass(c.configured, q.read.value) + Pass(c.configured, q.read.value)
            && multiset(Servers(q.asked)) == multiset(c.configured) + multiset(c.configured)
            && (q.read.value.Some? && c.configured != [] ==> q.asked[0].server == q.read.value.value)
            && TwiceAround(c.configured, q.read.value, q.asked)
            && forall k :: 0 <= k < |q.asked| ==> !q.asked[k].up
  {
    hide Exec, Pass;
    ReachableInv(c, steps);
    var q := Exec(c, INIT, steps).requests[id];
    assert RequestInv(c, q);
    var x := q.read.value;
    n := WasLastAssigned(c, steps, id, x);
    ReachableInv(c, steps[..n]);
    assert Servers(q.asked) == Order(c, x);
    Rotated(c.configured, x);
    GoesRoundTwice(c.configured, x, q.asked);
  }

  lemma Rotated(configured: seq<string>, x: Option<string>)
    ensures multiset(Pass(configured, x) + Pass(configured, x)) == multiset(configured) + multiset(configured)
    ensures |Pass(configured, x)| == |configured|
    ensures x.Some? && x.value in configured ==> (Pass(configured, x) + Pass(configured, x))[0] == x.value
  {
    var pass := Pass(configured, x);
    assert |pass| == |multiset(pass)| == |multiset(configured)|;
  }

  // ---------------------------------------------------------------------------------------------
  // One request alone

  function Asks(up: nat -> bool, n: nat): seq<Step> {
    if n == 0 then [] else Asks(up, n - 1) + [Ask(0, up(n - 1))]
  }

  /** The steps of one request; those that do not apply leave the state alone. */
  function Alone(path: string, up: nat -> bool, n: nat, ok: bool): seq<Step> {
    [Arrive(0, path), ReadLast(0)] + Asks(up, n) + [Answer(0, ok), GiveUp(0)]
  }

  function Unanswered(order: seq<string>, n: nat): seq<Asked>
    requires n <= |order|
  {
    seq(n, k requires 0 <= k < n => Asked(order[k], false))
  }

  function Single(s: State, q: Request): State {
    State(s.current, s.lastAssigned, map[0 := q])
  }

  lemma AskSnoc(c: Config, s: State, up: nat -> bool, n: nat)
    ensures Exec(c, s, Asks(up, n + 1)) == Next(c, Exec(c, s, Asks(up, n)), Ask(0, up(n)))
  {
    hide Exec, Next;
    ExecConcat(c, s, Asks(up, n), [Ask(0, up(n))]);
    One(c, Exec(c, s, Asks(up, n)), Ask(0, up(n)));
  }

  lemma AskAlone(c: Config, s: State, q: Request, up: bool)
    requires q.read.Some? && q.phase.Probing?
    ensures var q' := AskRequest(c, q, up);
            Next(c, Single(s, q), Ask(0, up)) ==
            if q'.phase.Forwarding? then State(Some(q'.phase.server), Some(q'.phase.server), map[0 := q'])
            else Single(s, q')
  {
    hide AskRequest;
    assert map[0 := q][0 := AskRequest(c, q, up)] == map[0 := AskRequest(c, q, up)];
  }

  lemma {:induction false} AskedInVain(c: Config, s: State, path: string, x: Option<string>, up: nat -> bool, n: nat)
    requires n <= |Order(c, x)| && s.requests == map[0 := Request(path, Some(x), [], Probing)]
    requires forall k :: 0 <= k < n ==> c.parses(Order(c, x)[k] + path) && !up(k)
    ensures Exec(c, s, Asks(up, n)) == Single(s, Request(path, Some(x), Unanswered(Order(c, x), n), Probing))
  {
    hide Order, Next, Exec;
    if n == 0 {
      assert Unanswered(Order(c, x), 0) == [];
      Nothing(c, s);
    } else {
      AskedInVain(c, s, path, x, up, n - 1);
      AskSnoc(c, s, up, n - 1);
      var q := Request(path, Some(x), Unanswered(Order(c, x), n - 1), Probing);
      assert q.asked + [Asked(Order(c, x)[n - 1], false)] == Unanswered(Order(c, x), n);
      AskAlone(c, s, q, false);
    }
  }

  lemma {:induction false} AsksIdle(c: Config, s: State, up: nat -> bool, n: nat)
    requires 0 in s.requests && !s.requests[0].phase.Probing?
    ensures Exec(c, s, Asks(up, n)) == s
  {
    if n > 0 {
      AsksIdle(c, s, up, n - 1);
      AskSnoc(c, s, up, n - 1);
    }
  }

  /** The whole run of one request, from what its probes come to. */
  lemma AloneRun(c: Config, s: State, path: string, up: nat -> bool, n: nat, ok: bool)
    requires s.requests == map[]
    ensures var s1 := Next(c, Next(c, s, Arrive(0, path)), ReadLast(0));
            Exec(c, s, Alone(path, up, n, ok)) ==
            Next(c, Next(c, Exec(c, s1, Asks(up, n)), Answer(0, ok)), GiveUp(0))
  {
    hide Exec, Next;
    var first, last := [Arrive(0, path), ReadLast(0)], [Answer(0, ok), GiveUp(0)];
    ExecConcat(c, s, first + Asks(up, n), last);
    ExecConcat(c, s, first, Asks(up, n));
    Two(c, s, Arrive(0, path), ReadLast(0));
    var s1 := Next(c, Next(c, s, Arrive(0, path)), ReadLast(0));
    Two(c, Exec(c, s1, Asks(up, n)), Answer(0, ok), GiveUp(0));
  }

  lemma Two(c: Config, s: State, a: Step, b: Step)
    ensures Exec(c, s, [a, b]) == Next(c, Next(c, s, a), b)
  {
    hide Exec, Next;
    assert [a, b] == [a] + [b];
    ExecConcat(c, s, [a], [b]);
    One(c, s, a);
    One(c, Next(c, s, a), b);
  }

  lemma Idle(c: Config, s: State, up: bool)
    requires 0 in s.requests && !s.requests[0].phase.Probing?
    ensures Next(c, s, Ask(0, up)) == s
  {
  }

  /** Probing from a state without a current server, by what `Probed` says of it. */
  lemma ProbedRun(c: Config, s: State, path: string, x: Option<string>, up: nat -> bool,
                  r: Result<string, ServerError>, n: nat)
    requires s.requests == map[0 := Request(path, Some(x), [], Probing)]
    requires Probed(Order(c, x), path, c.parses, up, r, n)
    ensures Exec(c, s, Asks(up, n + 1)) ==
            match r
            case Ok(server) =>
              var asked := Unanswered(Order(c, x), n - 1) + [Asked(server, true)];
              State(Some(server), Some(server), map[0 := Request(path, Some(x), asked, Forwarding(server))])
            case Err(e) => Single(s, Request(path, Some(x), Unanswered(Order(c, x), n), Failing(e)))
  {
    hide Exec, Order, Next;
    AskSnoc(c, s, up, n);
    if r.Ok? {
      AskedInVain(c, s, path, x, up, n - 1);
      AskSnoc(c, s, up, n - 1);
      var q := Request(path, Some(x), Unanswered(Order(c, x), n - 1), Probing);
      AskAlone(c, s, q, true);
      Idle(c, Exec(c, s, Asks(up, n)), up(n));
    } else {
      AskedInVain(c, s, path, x, up, n);
      AskAlone(c, s, Request(path, Some(x), Unanswered(Order(c, x), n), Probing), up(n));
    }
  }

  /** What the request of the serial code comes to, and what it leaves in the shared fields. */
  function Finished(s: State, path: string, read: Option<Option<string>>, asked: seq<Asked>,
                    answer: Result<string, ServerError>, ok: bool): State
  {
    match answer
    case Err(e) => State(None, s.lastAssigned, map[0 := Request(path, read, asked, Done(Err(e)))])
    case Ok(server) =>
      State(if ok then Some(server) else None, Some(server),
            map[0 := Request(path, read, asked, Done(if ok then Ok(server + path) else Err(RequestFailed)))])
  }

  function AskedBy(order: seq<string>, answer: Result<string, ServerError>, n: nat): seq<Asked>
    requires n <= |order| && (answer.Ok? ==> 0 < n)
  {
    if answer.Ok? then Unanswered(order, n - 1) + [Asked(answer.value, true)] else Unanswered(order, n)
  }

  lemma ProbingRun(c: Config, s: State, path: string, up: nat -> bool, ok: bool,
                   answer: Result<string, ServerError>, n: nat)
    requires s.requests == map[] && s.current.None?
    requires Probed(Order(c, s.lastAssigned), path, c.parses, up, answer, n)
    ensures Exec(c, s, Alone(path, up, n + 1, ok)) ==
            Finished(s, path, Some(s.lastAssigned), AskedBy(Order(c, s.lastAssigned), answer, n), answer, ok)
    ensures Servers(AskedBy(Order(c, s.lastAssigned), answer, n)) == Order(c, s.lastAssigned)[..n]
  {
    hide Exec, Order;
    var x := s.lastAssigned;
    var started, probing := Request(path, None, [], Started), Request(path, Some(x), [], Probing);
    AloneRun(c, s, path, up, n + 1, ok);
    assert map[][0 := started] == map[0 := started] && map[0 := started][0 := probing] == map[0 := probing];
    ProbedRun(c, Single(s, probing), path, x, up, answer, n);
    var asked := AskedBy(Order(c, x), answer, n);
    if answer.Ok? {
      FinishForwarding(c, State(Some(answer.value), Some(answer.value), map[]), Request(path, Some(x), asked, Started),
                       answer.value, ok);
    } else {
      FinishFailing(c, s, Request(path, Some(x), asked, Started), answer.error, ok);
    }
  }

  lemma FinishForwarding(c: Config, s: State, q: Request, server: string, ok: bool)
    requires s.lastAssigned == s.current == Some(server)
    ensures Next(c, Next(c, Single(s, q.(phase := Forwarding(server))), Answer(0, ok)), GiveUp(0)) ==
            Finished(s, q.path, q.read, q.asked, Ok(server), ok)
  {
    var q1, q2 := q.(phase := Forwarding(server)), q.(phase := Failing(RequestFailed));
    var q3 := q.(phase := if ok then Done(Ok(server + q.path)) else Done(Err(RequestFailed)));
    assert map[0 := q1][0 := q2] == map[0 := q2] && map[0 := q2][0 := q3] == map[0 := q3];
    assert map[0 := q1][0 := q3] == map[0 := q3];
  }

  lemma FinishFailing(c: Config, s: State, q: Request, e: ServerError, ok: bool)
    ensures Next(c, Next(c, Single(s, q.(phase := Failing(e))), Answer(0, ok)), GiveUp(0)) ==
            Finished(s, q.path, q.read, q.asked, Err(e), ok)
  {
    var q1, q2 := q.(phase := Failing(e)), q.(phase := Done(Err(e)));
    assert map[0 := q1][0 := q2] == map[0 := q2];
  }

  lemma CurrentRun(c: Config, s: State, path: string, up: nat -> bool, n: nat, ok: bool)
    requires s.requests == map[] && s.current.Some? && s.current == s.lastAssigned
    ensures var answer := if c.parses(s.current.value + path) then Ok(s.current.value) else Err(UrlParseError);
            Exec(c, s, Alone(path, up, n, ok)) == Finished(s, path, None, [], answer, ok)
  {
    hide Exec;
    AloneRun(c, s, path, up, n, ok);
    var server := s.current.value;
    var q := Request(path, None, [], Started);
    var phase := if c.parses(server + path) then Forwarding(server) else Failing(UrlParseError);
    assert map[][0 := q.(phase := phase)] == map[0 := q.(phase := phase)];
    AsksIdle(c, Single(s, q.(phase := phase)), up, n);
    if c.parses(server + path) {
      FinishForwarding(c, s, q, server, ok);
    } else {
      FinishFailing(c, s, q, UrlParseError, ok);
    }
  }

  class ServerSelection {
    const configured: seq<string>
    var current: Option<string>
    var lastAssigned: Option<string>

    ghost predicate Valid()
      reads this
    {
      Consistent(configured, current, lastAssigned)
    }

    /** The shared fields, and the requests given. */
    ghost function View(requests: map<nat, Request>): State
      reads this
    {
      State(current, lastAssigned, requests)
    }

    constructor (configured: seq<string>)
      ensures this.configured == configured && Valid() && current == None && lastAssigned == None
    {
      this.configured := configured;
      current, lastAssigned := None, None;
    }

    /** The address of the current server, or of the first that answers; `probes` are the servers asked. */
    method GetUrl(path: string, parses: string -> bool, up: nat -> bool)
      returns (r: Result<string, ServerError>, probes: seq<string>)
      requires Valid()
      modifies this
      ensures Valid()
      ensures old(current).Some? ==>
                && probes == [] && current == old(current) && lastAssigned == old(lastAssigned)
                && r == if parses(current.value + path) then Ok(current.value + path) else Err(UrlParseError)
      ensures old(current).None? ==>
                var servers := Pass(configured, old(lastAssigned)) + Pass(configured, old(lastAssigned));
                && probes <= servers
                && (r.Ok? ==>
                      && current == lastAssigned && current.Some? && r == Ok(current.value + path)
                      && Probed(servers, path, parses, up, Ok(current.value), |probes|))
                && (r.Err? ==>
                      && current == None && lastAssigned == old(lastAssigned)
                      && Probed(servers, path, parses, up, r, |probes|))
    {
      if current.Some? {
        var uri := current.value + path;
        r := if parses(uri) then Ok(uri) else Err(UrlParseError);
        return r, [];
      }
      var lastUsed := if lastAssigned.Some? then lastAssigned.value else "";
      var pos := Position(configured, lastUsed);
      var left, right := configured[..pos], configured[pos..];
      var servers := right + left + right + left;
      assert servers == Pass(configured, lastAssigned) + Pass(configured, lastAssigned);
      var answer, n := Probe(servers, path, parses, up);
      probes := servers[..n];
      r := answer;
      if answer.Ok? {
        InPass(configured, lastAssigned, n - 1);
        current := Some(answer.value);
        lastAssigned := Some(answer.value);
        r := Ok(answer.value + path);
      }
    }

    /** Any failure on the way to monerod, or from it, gives the current server up. */
    method Handle(path: string, parses: string -> bool, up: nat -> bool, answered: bool)
      returns (r: Result<string, ServerError>, probes: seq<string>)
      requires Valid()
      modifies this
      ensures Valid()
      ensures r.Err? ==> current == None
      ensures r.Ok? ==> answered && current.Some? && r == Ok(current.value + path)
      ensures old(lastAssigned).Some? ==> lastAssigned.Some?
      ensures r == Err(ServersUnavailable) ==>
                old(current).None? && lastAssigned == old(lastAssigned)
                && multiset(probes) == multiset(configured) + multiset(configured)
                && (lastAssigned.Some? ==> probes != [] && probes[0] == lastAssigned.value)
      ensures exists q ::
                && Exec(Config(configured, parses), old(View(map[])), Alone(path, up, |probes| + 1, answered)) ==
                   View(map[0 := q])
                && q.phase == Done(r) && Servers(q.asked) == probes
    {
      hide Exec, Alone, Pass;
      ghost var c, s := Config(configured, parses), View(map[]);
      r, probes := GetUrl(path, parses, up);
      ghost var answer := if r.Ok? then Ok(current.value) else Err(r.error);
      if s.current.Some? {
        CurrentRun(c, s, path, up, 1, answered);
      } else {
        ProbingRun(c, s, path, up, answered, answer, |probes|);
      }
      if r.Ok? && !answered {
        r := Err(RequestFailed);
      }
      if r.Err? {
        current := None;
      }
      if r == Err(ServersUnavailable) {
        assert probes == Pass(configured, lastAssigned) + Pass(configured, lastAssigned);
        Rotated(configured, lastAssigned);
      }
    }
  }

  lemma InPass(configured: seq<string>, lastAssigned: Option<string>, i: nat)
    requires i < |Pass(configured, lastAssigned) + Pass(configured, lastAssigned)|
    ensures (Pass(configured, lastAssigned) + Pass(configured, lastAssigned))[i] in configured
  {
    var pass := Pass(configured, lastAssigned);
    assert (pass + pass)[i] in multiset(pass);
  }
}
