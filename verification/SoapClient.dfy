/** The SOAP sender as objects: the pool, one call of `Send`, and the negotiation of the authentication
    mode. WinHTTP calls have an arbitrary outcome, and a trace records everything done. Other threads may
    hold connections and signal the abort handle meanwhile; what interleaved calls do to the pool is the
    subject of PoolSystem. */
module SoapClient {
  import Seqs

  datatype AuthMode = Unknown | Wsse | Basic

  datatype SoapResult = SoapResult(transportOk: bool, httpStatus: nat, fault: bool, body: string, error: string)

  const NO_RESULT := SoapResult(false, 0, false, "", "")

  /** The remembered modes and whether they are used. */
  datatype AuthCache = AuthCache(on: bool, modes: map<string, AuthMode>)

  function ModeFor(c: AuthCache, url: string): AuthMode {
    if c.on && url in c.modes then c.modes[url] else Unknown
  }

  function Remember(c: AuthCache, url: string, mode: AuthMode): AuthCache {
    if c.on then c.(modes := c.modes[url := mode]) else c
  }

  // ---- what is done, in order ----

  datatype Event =
    | Acquired(key: string)
    | Requested(mode: AuthMode, out: SoapResult)
    | Asked(signaled: bool)
    | Closed(key: string)
    | Released(key: string)
    | Sent(mode: AuthMode, out: SoapResult)

  class Trace {
    ghost var log: seq<Event>
  }

  /** One turn of a pooled call: the connection does not open, or a request is made on it; after a failed
      one the abort handle is asked. */
  datatype Turn = NotOpened | Answered(out: SoapResult) | Failed(out: SoapResult, aborted: bool)

  function TurnEvents(key: string, mode: AuthMode, turn: Turn): seq<Event> {
    match turn
    case NotOpened => [Acquired(key), Released(key)]
    case Answered(out) => [Acquired(key), Requested(mode, out), Released(key)]
    case Failed(out, aborted) => [Acquired(key), Requested(mode, out), Asked(aborted), Closed(key), Released(key)]
  }

  function TurnsEvents(key: string, mode: AuthMode, turns: seq<Turn>): seq<Event> {
    if turns == [] then []
    else TurnsEvents(key, mode, turns[..|turns| - 1]) + TurnEvents(key, mode, turns[|turns| - 1])
  }

  /** What a turn gives the caller. */
  predicate Gives(turn: Turn, out: SoapResult) {
    match turn
    case NotOpened => !out.transportOk
    case Answered(o) => out == o && o.transportOk
    case Failed(o, _) => out == o && !o.transportOk
  }

  /** The turns of a pooled call: one, or a second after a failed request that was not aborted. */
  predicate Turns(turns: seq<Turn>, out: SoapResult) {
    && 1 <= |turns| <= 2
    && Gives(turns[|turns| - 1], out)
    && (|turns| == 2 <==> turns[0].Failed? && !turns[0].aborted)
  }

  /** How a send went out: not at all, as one request on a connection of its own, or through the pool. */
  datatype Delivery = Nothing | Single(out: SoapResult) | Pooled(turns: seq<Turn>)

  datatype Sending = Sending(mode: AuthMode, delivery: Delivery, out: SoapResult)

  /** What the code allows of one send. */
  predicate Sound(s: Sending, parsed: bool, keepalive: bool) {
    match s.delivery
    case Nothing => !(parsed && keepalive) && !s.out.transportOk
    case Single(out) => parsed && !keepalive && s.out == out
    case Pooled(turns) => parsed && keepalive && Turns(turns, s.out)
  }

  function DeliveryEvents(key: string, mode: AuthMode, d: Delivery): seq<Event> {
    match d
    case Nothing => []
    case Single(out) => [Requested(mode, out)]
    case Pooled(turns) => TurnsEvents(key, mode, turns)
  }

  function SendEvents(key: string, s: Sending): seq<Event> {
    DeliveryEvents(key, s.mode, s.delivery) + [Sent(s.mode, s.out)]
  }

  ghost function CountRequests(log: seq<Event>): nat {
    if log == [] then 0
    else CountRequests(log[..|log| - 1]) + if log[|log| - 1].Requested? then 1 else 0
  }

  lemma {:induction false} CountAppend(a: seq<Event>, b: seq<Event>)
    ensures CountRequests(a + b) == CountRequests(a) + CountRequests(b)
  {
    if b == [] {
      assert a + b == a;
    } else {
      assert (a + b)[..|a + b| - 1] == a + b[..|b| - 1];
      CountAppend(a, b[..|b| - 1]);
    }
  }

  lemma CountOne(e: Event)
    ensures CountRequests([e]) == if e.Requested? then 1 else 0
  {
    assert [e][..0] == [];
  }

  lemma TurnCount(key: string, mode: AuthMode, turn: Turn)
    ensures CountRequests(TurnEvents(key, mode, turn)) == if turn.NotOpened? then 0 else 1
  {
    var e := TurnEvents(key, mode, turn);
    if turn.NotOpened? {
      CountAppend([e[0]], [e[1]]);
    } else {
      assert e == [e[0]] + [e[1]] + e[2..];
      CountAppend([e[0]] + [e[1]], e[2..]);
      CountAppend([e[0]], [e[1]]);
      CountNone(e[2..]);
    }
    CountOne(e[0]);
    CountOne(e[1]);
  }

  lemma {:induction false} CountNone(log: seq<Event>)
    requires forall e :: e in log ==> !e.Requested?
    ensures CountRequests(log) == 0
  {
    if log != [] { CountNone(log[..|log| - 1]); }
  }

  /** The requests among the turns. */
  function Requests(turns: seq<Turn>): (n: nat)
    ensures n <= |turns| && (turns != [] && !turns[|turns| - 1].NotOpened? ==> n >= 1)
  {
    if turns == [] then 0
    else Requests(turns[..|turns| - 1]) + if turns[|turns| - 1].NotOpened? then 0 else 1
  }

  /** The turns count exactly the requests in the events they stand for. */
  lemma {:induction false} RequestsAre(key: string, mode: AuthMode, turns: seq<Turn>)
    ensures CountRequests(TurnsEvents(key, mode, turns)) == Requests(turns)
  {
    hide TurnEvents, CountRequests;
    if turns == [] {
      CountNone([]);
    } else {
      var n := |turns| - 1;
      RequestsAre(key, mode, turns[..n]);
      TurnCount(key, mode, turns[n]);
      CountAppend(TurnsEvents(key, mode, turns[..n]), TurnEvents(key, mode, turns[n]));
    }
  }

  /** A send makes at most two requests with keep-alive and one without; one that completed made one. */
  lemma SendCount(key: string, s: Sending, parsed: bool, keepalive: bool)
    requires Sound(s, parsed, keepalive)
    ensures CountRequests(SendEvents(key, s)) <= if keepalive then 2 else 1
    ensures s.out.transportOk ==> CountRequests(SendEvents(key, s)) >= 1
  {
    hide CountRequests, TurnsEvents, Requests;
    CountAppend(DeliveryEvents(key, s.mode, s.delivery), [Sent(s.mode, s.out)]);
    CountOne(Sent(s.mode, s.out));
    match s.delivery
    case Nothing => CountNone([]);
    case Single(out) => CountOne(Requested(s.mode, out));
    case Pooled(turns) => RequestsAre(key, s.mode, turns);
  }

  lemma TurnTrace(log: seq<Event>, key: string, mode: AuthMode, turn: Turn)
    ensures log + TurnEvents(key, mode, turn)[1..] ==
            match turn
            case NotOpened => log + [Released(key)]
            case Answered(out) => log + [Requested(mode, out)] + [Released(key)]
            case Failed(out, aborted) =>
              log + [Requested(mode, out)] + [Asked(aborted)] + [Closed(key)] + [Released(key)]
  {
  }

  lemma OneTurn(key: string, mode: AuthMode, turn: Turn, out: SoapResult)
    ensures TurnsEvents(key, mode, [turn]) == TurnEvents(key, mode, turn)
    ensures Gives(turn, out) && (!turn.Failed? || turn.aborted) ==> Turns([turn], out)
  {
    hide TurnEvents;
    assert [turn][..0] == [];
  }

  lemma TurnsFields(turns: seq<Turn>, out: SoapResult)
    requires Turns(turns, out)
    ensures 1 <= |turns| <= 2 && (|turns| == 2 <==> turns[0].Failed? && !turns[0].aborted)
    ensures var last := turns[|turns| - 1];
            (last.Answered? <==> out.transportOk) && (!last.NotOpened? ==> out == last.out)
  {
  }

  lemma TwoTurns(key: string, mode: AuthMode, first: Turn, turn: Turn, out: SoapResult)
    ensures TurnsEvents(key, mode, [first, turn]) == TurnEvents(key, mode, first) + TurnEvents(key, mode, turn)
    ensures Gives(turn, out) && first.Failed? && !first.aborted ==> Turns([first, turn], out)
  {
    hide TurnEvents;
    OneTurn(key, mode, first, out);
    assert [first, turn][..1] == [first];
  }

  // ---- the objects ----

  class AbortHandle {
    var signaled: bool

    constructor ()
      ensures !signaled
    {
      signaled := false;
    }

    /** Reads the flag; another thread may have signaled since the last look. */
    method Signaled() returns (b: bool)
      modifies this
      ensures b == signaled && (old(signaled) ==> signaled)
    {
      var now: bool := *;
      signaled := signaled || now;
      b := signaled;
    }
  }

  /** `abort && abort->Signaled()`. */
  method Ask(abort: AbortHandle?, trace: Trace) returns (b: bool)
    modifies abort, trace
    ensures trace.log == old(trace.log) + [Asked(b)]
    ensures if abort == null then !b else b == abort.signaled && (old(abort.signaled) ==> b)
  {
    b := false;
    if abort != null {
      b := abort.Signaled();
    }
    trace.log := trace.log + [Asked(b)];
  }

  class Conn {
    const key: string
    var session: bool      // the handle is set
    var connect: bool
    var inUse: bool

    constructor (key: string)
      ensures this.key == key && !session && !connect && !inUse
    {
      this.key, session, connect, inUse := key, false, false, false;
    }

    /** The wait for `inUse` to be cleared. Whoever holds the connection may open or close it first, and
        releases it with both handles or neither, as PoolSystem.PoolSafe shows. */
    method Wait()
      requires !inUse ==> session == connect
      modifies this
      ensures !inUse && session == connect
      ensures !old(inUse) ==> session == old(session) && connect == old(connect)
    {
      if inUse {
        var open: bool := *;
        session, connect, inUse := open, open, false;
      }
    }
  }

  /** The key's connection is the one that was there, or a new one; the others are the same. */
  ghost predicate TookOnly(before: map<string, Conn>, now: map<string, Conn>, key: string) {
    key in now && now == before[key := now[key]] && (key in before ==> now[key] == before[key])
  }

  lemma TookKeeps(before: map<string, Conn>, now: map<string, Conn>, key: string)
    requires TookOnly(before, now, key)
    ensures key in now && (key in before ==> now[key] == before[key])
  {
  }

  lemma TookTwice(before: map<string, Conn>, now: map<string, Conn>, later: map<string, Conn>, key: string)
    requires TookOnly(before, now, key) && TookOnly(now, later, key)
    ensures later == now
  {
  }

  class SoapPool {
    var conns: map<string, Conn>
    var keepalive: bool
    var authCache: bool
    var auth: map<string, AuthMode>

    constructor ()
      ensures Valid() && conns == map[] && keepalive && Cache() == AuthCache(true, map[])
    {
      conns, keepalive, authCache, auth := map[], true, true, map[];
    }

    ghost function Cache(): AuthCache
      reads this
    {
      AuthCache(authCache, auth)
    }

    /** One connection per key; those nobody holds have both handles or neither. */
    ghost predicate Valid()
      reads `conns, conns.Values
    {
      forall k :: k in conns ==>
        && conns[k].key == k
        && (!conns[k].inUse ==> conns[k].session == conns[k].connect)
    }

    /** The connection of a key, if there is one. */
    ghost function Own(key: string): set<Conn>
      reads `conns
    {
      if key in conns then {conns[key]} else {}
    }

    method SetAuthCache(on: bool)
      modifies `authCache
      ensures Cache() == old(Cache()).(on := on)
    {
      authCache := on;
    }

    method AuthFor(url: string) returns (mode: AuthMode)
      ensures mode == ModeFor(Cache(), url)
    {
      if !authCache {
        return Unknown;
      }
      mode := if url in auth then auth[url] else Unknown;
    }

    method RememberAuth(url: string, mode: AuthMode)
      modifies `auth
      ensures Cache() == Remember(old(Cache()), url, mode)
    {
      if !authCache {
        return;
      }
      auth := auth[url := mode];
    }

    /** Finds or makes the key's connection, waits until it is free, and takes it. One that was free is
        taken as it was. */
    method Acquire(key: string, trace: Trace) returns (conn: Conn)
      requires Valid()
      modifies `conns, Own(key), trace
      ensures Valid() && TookOnly(old(conns), conns, key) && conns[key] == conn
      ensures key !in old(conns) ==> fresh(conn)
      ensures conn.inUse && conn.session == conn.connect
      ensures key !in old(conns) ==> !conn.connect
      ensures key in old(conns) && !old(conns[key].inUse) ==> conn.connect == old(conns[key].connect)
      ensures trace.log == old(trace.log) + [Acquired(key)]
    {
      if key !in conns {
        conn := new Conn(key);
        conns := conns[key := conn];
      } else {
        conn := conns[key];
      }
      conn.Wait();
      conn.inUse := true;
      trace.log := trace.log + [Acquired(key)];
    }

    /** Frees the connection; the pool stays valid when its handles are consistent. */
    method Release(conn: Conn, trace: Trace)
      modifies conn`inUse, trace
      ensures !conn.inUse && trace.log == old(trace.log) + [Released(conn.key)]
      ensures old(Valid()) && conn.session == conn.connect ==> Valid()
    {
      conn.inUse := false;
      trace.log := trace.log + [Released(conn.key)];
    }

    method Close(conn: Conn, trace: Trace)
      modifies conn`session, conn`connect, trace
      ensures !conn.session && !conn.connect && trace.log == old(trace.log) + [Closed(conn.key)]
      ensures old(Valid()) ==> Valid()
    {
      if conn.connect {
        conn.connect := false;
      }
      if conn.session {
        conn.session := false;
      }
      trace.log := trace.log + [Closed(conn.key)];
    }
  }

  // ---- sending ----

  /** Opens the connection unless it is open; on any failure nothing is stored. */
  method OpenConnection(conn: Conn) returns (ok: bool)
    requires conn.session == conn.connect
    modifies conn`session, conn`connect
    ensures conn.session == conn.connect == ok
    ensures old(conn.connect) ==> ok
  {
    if conn.connect {
      return true;
    }
    var gotSession: bool, gotConnect: bool := *, *;
    if !gotSession {
      return false;
    }
    if !gotConnect {
      return false;      // the session is closed again
    }
    conn.session := true;
    conn.connect := true;
    ok := true;
  }

  /** One HTTP request. It may fail for any reason, and does when it finds the handle signaled. */
  method DoRequest(mode: AuthMode, abort: AbortHandle?, trace: Trace) returns (ok: bool, out: SoapResult)
    modifies abort, trace
    ensures ok == out.transportOk && trace.log == old(trace.log) + [Requested(mode, out)]
    ensures abort != null && old(abort.signaled) ==> !ok && abort.signaled
  {
    out, ok := NO_RESULT, false;
    var gotRequest: bool := *;
    if gotRequest {
      var aborted := false;
      if abort != null {
        aborted := abort.Signaled();
      }
      if !aborted {
        var r: SoapResult := *;
        ok := *;
        out := r.(transportOk := ok);
      }
    }
    trace.log := trace.log + [Requested(mode, out)];
  }

  /** What one turn does once it has the connection. A failed request is followed by a close, and every
      way out by the release. */
  method Exchange(pool: SoapPool, conn: Conn, mode: AuthMode, abort: AbortHandle?, trace: Trace)
    returns (out: SoapResult, turn: Turn)
    requires pool.Valid() && conn.inUse && conn.session == conn.connect
    modifies conn, abort, trace
    ensures pool.Valid() && !conn.inUse
    ensures Gives(turn, out) && conn.session == conn.connect == turn.Answered?
    ensures turn.NotOpened? ==> !old(conn.connect)
    ensures turn.Failed? ==> (turn.aborted <==> abort != null && abort.signaled)
    ensures abort != null && old(abort.signaled) ==>
              abort.signaled && !turn.Answered? && (turn.Failed? ==> turn.aborted)
    ensures trace.log == old(trace.log) + TurnEvents(conn.key, mode, turn)[1..]
  {
    hide TurnEvents;
    out, turn := NO_RESULT, NotOpened;
    TurnTrace(trace.log, conn.key, mode, turn);
    var open := conn.connect;
    if !open {
      open := OpenConnection(conn);
    }
    if !open {
      pool.Release(conn, trace);
      return;
    }
    var ok;
    ok, out := DoRequest(mode, abort, trace);
    if ok {
      turn := Answered(out);
      TurnTrace(old(trace.log), conn.key, mode, turn);
      pool.Release(conn, trace);
      return;
    }
    var aborted := Ask(abort, trace);
    turn := Failed(out, aborted);
    TurnTrace(old(trace.log), conn.key, mode, turn);
    pool.Close(conn, trace);
    pool.Release(conn, trace);
  }

  /** One turn of the pooled loop. */
  method Attempt(pool: SoapPool, key: string, mode: AuthMode, abort: AbortHandle?, trace: Trace)
    returns (out: SoapResult, turn: Turn)
    requires pool.Valid()
    modifies pool`conns, pool.Own(key), abort, trace
    ensures pool.Valid() && TookOnly(old(pool.conns), pool.conns, key)
    ensures key !in old(pool.conns) ==> fresh(pool.conns[key])
    ensures !pool.conns[key].inUse && pool.conns[key].connect == turn.Answered?
    ensures Gives(turn, out)
    ensures turn.Failed? ==> (turn.aborted <==> abort != null && abort.signaled)
    ensures abort != null && old(abort.signaled) ==>
              abort.signaled && !turn.Answered? && (turn.Failed? ==> turn.aborted)
    ensures trace.log == old(trace.log) + TurnEvents(key, mode, turn)
  {
    var conn := pool.Acquire(key, trace);
    out, turn := Exchange(pool, conn, mode, abort, trace);
    assert [Acquired(key)] + TurnEvents(key, mode, turn)[1..] == TurnEvents(key, mode, turn);
  }

  /** The attempts of a pooled call: a second exactly after a failed request that did not find the handle
      signaled. */
  method Attempts(pool: SoapPool, key: string, mode: AuthMode, abort: AbortHandle?, trace: Trace)
    returns (out: SoapResult, turns: seq<Turn>)
    requires pool.Valid()
    modifies pool`conns, pool.Own(key), abort, trace
    ensures pool.Valid() && Turns(turns, out)
    ensures TookOnly(old(pool.conns), pool.conns, key) && !pool.conns[key].inUse
    ensures key !in old(pool.conns) ==> fresh(pool.conns[key])
    ensures trace.log == old(trace.log) + TurnsEvents(key, mode, turns)
    ensures turns[|turns| - 1].Failed? ==> (turns[|turns| - 1].aborted <==> abort != null && abort.signaled)
    ensures abort != null && old(abort.signaled) ==> abort.signaled && |turns| == 1 && !out.transportOk
  {
    hide TurnsEvents, TurnEvents, SoapPool.Valid, Turns, Gives, TookOnly;
    var first: Turn := NotOpened;
    for attempt := 0 to 2
      invariant attempt < 2 && pool.Valid()
      invariant if attempt == 0 then pool.conns == old(pool.conns) else TookOnly(old(pool.conns), pool.conns, key)
      invariant attempt > 0 ==> key in pool.conns
      invariant attempt > 0 && key in old(pool.conns) ==> pool.conns[key] == old(pool.conns)[key]
      invariant attempt > 0 && key !in old(pool.conns) ==> fresh(pool.conns[key])
      invariant attempt > 0 ==> first.Failed? && !first.aborted
      invariant trace.log == if attempt == 0 then old(trace.log) else old(trace.log) + TurnEvents(key, mode, first)
      invariant abort != null && old(abort.signaled) ==> abort.signaled && attempt == 0
    {
      var turn;
      ghost var before := pool.conns;
      out, turn := Attempt(pool, key, mode, abort, trace);
      TookKeeps(before, pool.conns, key);
      if attempt > 0 { TookTwice(old(pool.conns), before, pool.conns, key); }
      if !turn.Failed? || turn.aborted || attempt == 1 {
        turns := TurnsOf(key, mode, attempt, first, turn, out);
        Seqs.Assoc(old(trace.log), TurnEvents(key, mode, first), TurnEvents(key, mode, turn));
        return;
      }
      first := turn;
    }
    assert false;
  }

  method TurnsOf(key: string, mode: AuthMode, attempt: nat, first: Turn, turn: Turn, out: SoapResult)
    returns (turns: seq<Turn>)
    requires attempt <= 1 && Gives(turn, out)
    requires if attempt == 0 then !turn.Failed? || turn.aborted else first.Failed? && !first.aborted
    ensures Turns(turns, out) && |turns| == attempt + 1 && turns[attempt] == turn
    ensures TurnsEvents(key, mode, turns)
         == (if attempt == 0 then [] else TurnEvents(key, mode, first)) + TurnEvents(key, mode, turn)
  {
    OneTurn(key, mode, turn, out);
    TwoTurns(key, mode, first, turn, out);
    hide TurnEvents;
    turns := if attempt == 0 then [turn] else [first, turn];
  }

  /** One pooled call. Its turns account for everything done. */
  method SendPooled(pool: SoapPool, parsed: bool, key: string, mode: AuthMode, abort: AbortHandle?, trace: Trace)
    returns (ok: bool, out: SoapResult, turns: seq<Turn>)
    requires pool.Valid()
    modifies pool`conns, pool.Own(key), abort, trace
    ensures pool.Valid() && ok == out.transportOk
    ensures if parsed then Turns(turns, out) else turns == [] && !ok
    ensures parsed ==>
              var last := turns[|turns| - 1];
              && 1 <= |turns| <= 2 && (|turns| == 2 <==> turns[0].Failed? && !turns[0].aborted)
              && (last.Answered? <==> ok) && (!last.NotOpened? ==> out == last.out)
    ensures if parsed then TookOnly(old(pool.conns), pool.conns, key) && !pool.conns[key].inUse
            else pool.conns == old(pool.conns)
    ensures parsed && key !in old(pool.conns) ==> fresh(pool.conns[key])
    ensures trace.log == old(trace.log) + TurnsEvents(key, mode, turns)
    ensures parsed && turns[|turns| - 1].Failed? ==>
              (turns[|turns| - 1].aborted <==> abort != null && abort.signaled)
    ensures abort != null && old(abort.signaled) ==> abort.signaled && |turns| <= 1 && !ok
  {
    ok, out, turns := false, NO_RESULT, [];
    if !parsed {
      return;
    }
    out, turns := Attempts(pool, key, mode, abort, trace);
    TurnsFields(turns, out);
    ok := out.transportOk;
  }

  /** A call on a connection of its own: one request, if the URL parses and the connection opens. */
  method SendPerCall(parsed: bool, mode: AuthMode, abort: AbortHandle?, trace: Trace)
    returns (ok: bool, out: SoapResult, delivery: Delivery)
    modifies abort, trace
    ensures ok == out.transportOk
    ensures delivery == Nothing || (parsed && delivery == Single(out))
    ensures delivery == Nothing ==> !ok
    ensures trace.log == old(trace.log) + DeliveryEvents("", mode, delivery)
    ensures abort != null && old(abort.signaled) ==> abort.signaled && !ok
  {
    ok, out, delivery := false, NO_RESULT, Nothing;
    var gotConnection: bool := *;
    if !parsed || !gotConnection {
      return;
    }
    ok, out := DoRequest(mode, abort, trace);
    delivery := Single(out);
  }

  /** Whether a client keeps its connections. */
  ghost predicate Keeps(pool: SoapPool?)
    reads pool
  {
    pool != null && pool.keepalive
  }

  /** A call of `Send`, whose effect on the trace is that of one sound sending with the given mode. */
  method Send(pool: SoapPool?, parsed: bool, key: string, mode: AuthMode, abort: AbortHandle?, trace: Trace)
    returns (s: Sending)
    requires pool != null ==> pool.Valid()
    modifies if pool != null then {pool} else {}, if pool != null then pool.Own(key) else {}, abort, trace
    ensures Sound(s, parsed, Keeps(pool)) && s.mode == mode
    ensures s.delivery.Pooled? <==> parsed && pool != null && pool.keepalive
    ensures s.delivery.Nothing? ==> !s.out.transportOk
    ensures s.delivery.Single? ==> s.out == s.delivery.out
    ensures trace.log == old(trace.log) + SendEvents(key, s)
    ensures pool != null ==>
              && pool.Valid() && pool.Cache() == old(pool.Cache()) && pool.keepalive == old(pool.keepalive)
              && (pool.conns == old(pool.conns) || TookOnly(old(pool.conns), pool.conns, key))
              && (key in pool.conns && key !in old(pool.conns) ==> fresh(pool.conns[key]))
    ensures abort != null && old(abort.signaled) ==>
              abort.signaled && !s.out.transportOk && (s.delivery.Pooled? ==> |s.delivery.turns| == 1)
  {
    var ok, out, delivery;
    if pool != null && pool.keepalive {
      var turns;
      ok, out, turns := SendPooled(pool, parsed, key, mode, abort, trace);
      delivery := if parsed then Pooled(turns) else Nothing;
    } else {
      ok, out, delivery := SendPerCall(parsed, mode, abort, trace);
    }
    s := Sending(mode, delivery, out);
    trace.log := trace.log + [Sent(mode, out)];
    SendTrace(old(trace.log), key, s);
  }

  lemma SendTrace(log: seq<Event>, key: string, s: Sending)
    ensures log + DeliveryEvents(key, s.mode, s.delivery) + [Sent(s.mode, s.out)] == log + SendEvents(key, s)
    ensures !s.delivery.Pooled? ==> DeliveryEvents("", s.mode, s.delivery) == DeliveryEvents(key, s.mode, s.delivery)
  {
  }

  // ---- negotiation ----

  /** What an operation found: that there was nothing to negotiate; or, at a first contact, WS-Security
      accepted; or rejected, and then the Basic request completed or not; or rejected and aborted. */
  datatype Contact = Known | Accepted | Rejected(basicCompleted: bool) | Aborted

  predicate Accepts(r: SoapResult) {
    r.transportOk && r.httpStatus != 401 && !r.fault
  }

  /** What the answers of a first contact amount to. */
  function FoundBy(first: SoapResult, aborted: bool, second: SoapResult): Contact {
    if Accepts(first) then Accepted else if aborted then Aborted else Rejected(second.transportOk)
  }

  predicate Negotiates(c: AuthCache, allowBasic: bool, url: string) {
    allowBasic && ModeFor(c, url).Unknown?
  }

  function AfterPost(c: AuthCache, allowBasic: bool, url: string, found: Contact): AuthCache {
    if !Negotiates(c, allowBasic, url) then c
    else match found
      case Known => c
      case Accepted => Remember(c, url, Wsse)
      case Rejected(done) => if done then Remember(c, url, Basic) else c
      case Aborted => c
  }

  /** What was found is what the sends gave: Basic is tried exactly when WS-Security was not accepted and
      the operation was not aborted then. */
  predicate Finds(sends: seq<Sending>, found: Contact) {
    match found
    case Known => |sends| == 1
    case Accepted => |sends| == 1 && sends[0].mode == Wsse && Accepts(sends[0].out)
    case Aborted => |sends| == 1 && sends[0].mode == Wsse && !Accepts(sends[0].out)
    case Rejected(done) =>
      && |sends| == 2 && sends[0].mode == Wsse && !Accepts(sends[0].out)
      && sends[1].mode == Basic && sends[1].out.transportOk == done
  }

  /** Everything an operation does. */
  function PostEvents(key: string, sends: seq<Sending>, found: Contact): seq<Event>
    requires Finds(sends, found)
  {
    SendEvents(key, sends[0])
    + match found
      case Known => []
      case Accepted => []
      case Aborted => [Asked(true)]
      case Rejected(_) => [Asked(false)] + SendEvents(key, sends[1])
  }

  /** The same in the fields of the answers. */
  lemma FindsFields(sends: seq<Sending>, found: Contact)
    requires Finds(sends, found)
    ensures 1 <= |sends| <= 2
    ensures found.Known? ==> |sends| == 1
    ensures !found.Known? ==>
              var first := sends[0].out;
              var good := first.transportOk && first.httpStatus != 401 && !first.fault;
              && sends[0].mode == Wsse
              && (good ==> found.Accepted? && |sends| == 1)
              && (!good ==> if found.Aborted? then |sends| == 1 else |sends| == 2 && sends[1].mode == Basic)
              && found == FoundBy(first, found.Aborted?, sends[|sends| - 1].out)
  {
  }

  lemma KnownPost(key: string, s: Sending)
    ensures Finds([s], Known) && PostEvents(key, [s], Known) == SendEvents(key, s)
  {
    assert SendEvents(key, s) + [] == SendEvents(key, s);
  }

  /** At most two requests for each send with keep-alive, and one without; an operation that got an
      answer made one. */
  lemma PostCount(key: string, sends: seq<Sending>, found: Contact, parsed: bool, keepalive: bool)
    requires Finds(sends, found) && forall s :: s in sends ==> Sound(s, parsed, keepalive)
    ensures CountRequests(PostEvents(key, sends, found)) <= |sends| * if keepalive then 2 else 1
    ensures sends[|sends| - 1].out.transportOk ==> CountRequests(PostEvents(key, sends, found)) >= 1
  {
    hide CountRequests, SendEvents, Sound;
    SendCount(key, sends[0], parsed, keepalive);
    var first := SendEvents(key, sends[0]);
    match found
    case Known => assert first + [] == first;
    case Accepted => assert first + [] == first;
    case Aborted =>
      CountAppend(first, [Asked(true)]);
      CountOne(Asked(true));
    case Rejected(_) =>
      SendCount(key, sends[1], parsed, keepalive);
      var second := SendEvents(key, sends[1]);
      CountAppend(first, [Asked(false)] + second);
      CountAppend([Asked(false)], second);
      CountOne(Asked(false));
  }

  datatype Posted = Ok(body: string) | TransportFailed | Fault | HttpError(status: nat)

  function Verdict(out: SoapResult): Posted {
    if !out.transportOk then TransportFailed
    else if out.fault then Fault
    else if out.httpStatus != 200 then HttpError(out.httpStatus)
    else Ok(out.body)
  }

  lemma AfterFound(c: AuthCache, allowBasic: bool, url: string, sends: seq<Sending>, found: Contact)
    requires Finds(sends, found) && (found.Known? <==> !Negotiates(c, allowBasic, url))
    ensures sends != []
    ensures AfterPost(c, allowBasic, url, found)
         == AfterOp(c, Post(allowBasic, url, sends[0].out, found.Aborted?, sends[|sends| - 1].out))
  {
    FindsFields(sends, found);
  }

  /** First contact: WS-Security first, Basic on rejection, and the mode remembered. */
  method Negotiate(pool: SoapPool?, url: string, parsed: bool, key: string, abort: AbortHandle?, trace: Trace)
    returns (sends: seq<Sending>, found: Contact)
    requires pool != null ==> pool.Valid() && ModeFor(pool.Cache(), url).Unknown?
    modifies if pool != null then {pool} else {}, if pool != null then pool.Own(key) else {}, abort, trace
    ensures pool != null ==>
              && pool.Valid() && pool.keepalive == old(pool.keepalive)
              && pool.Cache() == AfterPost(old(pool.Cache()), true, url, found)
    ensures !found.Known? && Finds(sends, found)
    ensures forall s :: s in sends ==> Sound(s, parsed, Keeps(pool))
    ensures trace.log == old(trace.log) + PostEvents(key, sends, found)
    ensures found.Aborted? ==> abort != null && abort.signaled
    ensures abort != null && old(abort.signaled) ==>
              found.Aborted? && (sends[0].delivery.Pooled? ==> |sends[0].delivery.turns| == 1)
  {
    hide SendEvents, Sound, SoapPool.Valid;
    ghost var start := trace.log;
    var first := Send(pool, parsed, key, Wsse, abort, trace);
    sends, found := [first], Accepted;
    if Accepts(first.out) {
      if pool != null {
        pool.RememberAuth(url, Wsse);
      }
      assert start + SendEvents(key, first) == start + (SendEvents(key, first) + []);
      return;
    }
    var aborted := Ask(abort, trace);
    if aborted {
      found := Aborted;
      assert start + SendEvents(key, first) + [Asked(true)] == start + (SendEvents(key, first) + [Asked(true)]);
      return;
    }
    var second := Send(pool, parsed, key, Basic, abort, trace);
    sends := [first, second];
    found := Rejected(second.out.transportOk);
    if pool != null && second.out.transportOk {
      pool.RememberAuth(url, Basic);
    }
    assert start + SendEvents(key, first) + [Asked(false)] + SendEvents(key, second)
        == start + (SendEvents(key, first) + ([Asked(false)] + SendEvents(key, second)));
  }

  /** One operation. With a known mode, or without fallback, it sends once, with that mode or with
      WS-Security; otherwise it negotiates. The trace holds its sends and nothing else. */
  method PostOperation(pool: SoapPool?, allowBasic: bool, url: string, parsed: bool, key: string,
                       abort: AbortHandle?, trace: Trace)
    returns (posted: Posted, sends: seq<Sending>, found: Contact)
    requires pool != null ==> pool.Valid()
    modifies if pool != null then {pool} else {}, if pool != null then pool.Own(key) else {}, abort, trace
    ensures pool != null ==>
              && pool.Valid() && pool.keepalive == old(pool.keepalive)
              && pool.Cache() == AfterPost(old(pool.Cache()), allowBasic, url, found)
    ensures Finds(sends, found) && forall s :: s in sends ==> Sound(s, parsed, Keeps(pool))
    ensures 1 <= |sends| <= 2
    ensures pool != null ==>
              pool.Cache() == AfterOp(old(pool.Cache()),
                                      Post(allowBasic, url, sends[0].out, found.Aborted?, sends[|sends| - 1].out))
    ensures !found.Known? ==>
              var first := sends[0].out;
              var good := first.transportOk && first.httpStatus != 401 && !first.fault;
              && sends[0].mode == Wsse
              && (good ==> |sends| == 1)
              && (!good ==> (|sends| == 2 && sends[1].mode == Basic)
                            || (|sends| == 1 && abort != null && abort.signaled))
    ensures var cached := if pool != null && allowBasic then ModeFor(old(pool.Cache()), url) else Unknown;
            && (found.Known? <==> !allowBasic || !cached.Unknown?)
            && (found.Known? ==> sends[0].mode == if cached.Basic? then Basic else Wsse)
    ensures trace.log == old(trace.log) + PostEvents(key, sends, found)
    ensures CountRequests(trace.log[|old(trace.log)|..]) <= |sends| * if Keeps(pool) then 2 else 1
    ensures var last := sends[|sends| - 1].out;
            && (posted.TransportFailed? <==> !last.transportOk)
            && (posted.Fault? <==> last.transportOk && last.fault)
            && (posted.Ok? <==> last.transportOk && !last.fault && last.httpStatus == 200)
            && (posted.Ok? ==> posted.body == last.body)
            && (posted.HttpError? ==> posted.status == last.httpStatus)
    ensures !posted.TransportFailed? ==> CountRequests(trace.log[|old(trace.log)|..]) >= 1
    ensures found.Aborted? ==> abort != null && abort.signaled
    ensures abort != null && old(abort.signaled) ==>
              |sends| == 1 && (sends[0].delivery.Pooled? ==> |sends[0].delivery.turns| == 1)
  {
    hide SendEvents, PostEvents, Finds, Sound, SoapPool.Valid, CountRequests, Remember;
    ghost var start := trace.log;
    var s;
    if !allowBasic {
      s := Send(pool, parsed, key, Wsse, abort, trace);
      sends, found := [s], Known;
      KnownPost(key, s);
    } else {
      var cached := Unknown;
      if pool != null {
        cached := pool.AuthFor(url);
      }
      if cached.Basic? {
        s := Send(pool, parsed, key, Basic, abort, trace);
        sends, found := [s], Known;
        KnownPost(key, s);
      } else if cached.Wsse? {
        s := Send(pool, parsed, key, Wsse, abort, trace);
        sends, found := [s], Known;
        KnownPost(key, s);
      } else {
        sends, found := Negotiate(pool, url, parsed, key, abort, trace);
      }
    }
    FindsFields(sends, found);
    AfterFound(if pool != null then old(pool.Cache()) else AuthCache(true, map[]), allowBasic, url, sends, found);
    assert trace.log[|start|..] == PostEvents(key, sends, found);
    PostCount(key, sends, found, parsed, Keeps(pool));
    posted := Verdict(sends[|sends| - 1].out);
  }

  // ---- sequential runs ----

  /** A toggle of the cache; or an operation with the answers it would get: the first one, whether it found
      itself aborted after that, and the one to Basic. */
  datatype Op =
    | Toggle(on: bool)
    | Post(allowBasic: bool, url: string, first: SoapResult, aborted: bool, second: SoapResult)

  function AfterOp(c: AuthCache, op: Op): AuthCache {
    match op
    case Toggle(on) => c.(on := on)
    case Post(allowBasic, url, first, aborted, second) =>
      AfterPost(c, allowBasic, url, FoundBy(first, aborted, second))
  }

  function AfterOps(ops: seq<Op>): AuthCache {
    if ops == [] then AuthCache(true, map[]) else AfterOp(AfterOps(ops[..|ops| - 1]), ops[|ops| - 1])
  }

  lemma {:induction false} StoredModesKnown(ops: seq<Op>)
    ensures forall u :: u in AfterOps(ops).modes ==> !AfterOps(ops).modes[u].Unknown?
  {
    if ops != [] { StoredModesKnown(ops[..|ops| - 1]); }
  }

  /** Over any sequence of operations and toggles, whatever the outcomes, a stored mode stays. */
  lemma {:induction false} ModeSticks(ops: seq<Op>, n: nat, url: string)
    requires n <= |ops| && url in AfterOps(ops[..n]).modes
    ensures url in AfterOps(ops).modes && AfterOps(ops).modes[url] == AfterOps(ops[..n]).modes[url]
  {
    if n < |ops| {
      var front := ops[..|ops| - 1];
      assert front[..n] == ops[..n];
      ModeSticks(front, n, url);
      StoredModesKnown(front);
    } else {
      assert ops[..n] == ops;
    }
  }

  /** The last toggle of the cache, or -1. */
  function LastToggle(ops: seq<Op>): (k: int)
    ensures -1 <= k < |ops| && (k >= 0 ==> ops[k].Toggle?)
    ensures forall j :: k < j < |ops| ==> !ops[j].Toggle?
  {
    if ops == [] then -1
    else if ops[|ops| - 1].Toggle? then |ops| - 1
    else LastToggle(ops[..|ops| - 1])
  }

  /** The cache is on from the start, and then as the last toggle set it. */
  lemma {:induction false} SwitchIs(ops: seq<Op>)
    ensures AfterOps(ops).on == if LastToggle(ops) < 0 then true else ops[LastToggle(ops)].on
  {
    if ops != [] { SwitchIs(ops[..|ops| - 1]); }
  }

  /** Operation `i` settles something about `url` while the cache is on: its first answer is no rejection, or
      it goes on to Basic and that completes. */
  ghost predicate Decides(ops: seq<Op>, i: nat, url: string)
    requires i < |ops|
  {
    && ops[i].Post? && ops[i].allowBasic && ops[i].url == url
    && AfterOps(ops[..i]).on
    && ((ops[i].first.transportOk && ops[i].first.httpStatus != 401 && !ops[i].first.fault)
        || (!ops[i].aborted && ops[i].second.transportOk))
  }

  lemma DecidesFront(ops: seq<Op>, url: string)
    requires ops != []
    ensures forall i :: 0 <= i < |ops| - 1 ==> (Decides(ops[..|ops| - 1], i, url) <==> Decides(ops, i, url))
  {
    var front := ops[..|ops| - 1];
    forall i | 0 <= i < |front| ensures Decides(front, i, url) <==> Decides(ops, i, url) {
      assert front[..i] == ops[..i];
    }
  }

  /** What the last operation does to the stored mode of a URL. */
  lemma LastDecides(ops: seq<Op>, url: string)
    requires ops != []
    ensures var n := |ops| - 1;
            var before, after := AfterOps(ops[..n]).modes, AfterOps(ops).modes;
            && (url in after <==> url in before || Decides(ops, n, url))
            && (url in before ==> after[url] == before[url])
            && (url !in before && url in after ==>
                  var first := ops[n].first;
                  after[url] == if first.transportOk && first.httpStatus != 401 && !first.fault then Wsse else Basic)
  {
    StoredModesKnown(ops[..|ops| - 1]);
  }

  /** The first operation that settles something about `url`, or -1. */
  ghost function FirstToDecide(ops: seq<Op>, url: string): (k: int)
    ensures -1 <= k < |ops| && (k >= 0 ==> Decides(ops, k, url))
    ensures forall j :: 0 <= j < (if k >= 0 then k else |ops|) ==> !Decides(ops, j, url)
  {
    if ops == [] then -1
    else
      var n := |ops| - 1;
      var k := FirstToDecide(ops[..n], url);
      DecidesFront(ops, url);
      if k >= 0 then k else if Decides(ops, n, url) then n else -1
  }

  /** A mode is stored exactly for the URLs that some negotiating operation, with the cache on, found
      accepted or completed with Basic; and the first of those decides which. */
  lemma {:induction false} StoredByFirst(ops: seq<Op>, url: string)
    ensures var k := FirstToDecide(ops, url);
            && (url in AfterOps(ops).modes <==> k >= 0)
            && (k >= 0 ==>
                  AfterOps(ops).modes[url]
                  == if ops[k].first.transportOk && ops[k].first.httpStatus != 401 && !ops[k].first.fault
                     then Wsse else Basic)
  {
    if ops != [] {
      hide Decides, AfterOps;
      StoredByFirst(ops[..|ops| - 1], url);
      LastDecides(ops, url);
    }
  }

  /** What the cache answers after any history: the mode its first deciding operation found, and unknown
      while it is off or nothing was decided. */
  lemma LookupRemembers(ops: seq<Op>, url: string)
    ensures var k := FirstToDecide(ops, url);
            if !AfterOps(ops).on || k < 0 then ModeFor(AfterOps(ops), url) == Unknown
            else ModeFor(AfterOps(ops), url)
                 == if ops[k].first.transportOk && ops[k].first.httpStatus != 401 && !ops[k].first.fault
                    then Wsse else Basic
  {
    StoredByFirst(ops, url);
  }

  /** An operation that may fall back negotiates exactly while the cache is off or nothing so far has
      settled the service's mode. */
  lemma NegotiatesOnce(ops: seq<Op>, allowBasic: bool, url: string)
    ensures Negotiates(AfterOps(ops), allowBasic, url)
        <==> allowBasic && !(AfterOps(ops).on && exists i :: 0 <= i < |ops| && Decides(ops, i, url))
  {
    StoredModesKnown(ops);
    StoredByFirst(ops, url);
  }
}
