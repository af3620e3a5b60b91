/** The connection pool under any interleaving of senders, each running `SendPooled` again and again.
    A step is one critical section, or one call made outside the locks. Opening a connection and
    sending a request have an arbitrary outcome. */
module PoolSystem {

  type Key = string      // scheme, host and port
  type ConnId = nat
  type Thread = nat

  /** `session` and `connect` say which of the two handles is set. */
  datatype Conn = Conn(key: Key, session: bool, connect: bool, inUse: bool)

  /** Where a sender is. */
  datatype Pc =
    | Outside                      // not in SendPooled
    | Start(attempt: nat)          // about to look its connection up
    | Waiting(attempt: nat)        // waits for the connection to be free
    | Got(attempt: nat)            // holds it, tests for an open handle
    | Opened(attempt: nat)         // both handles obtained, none stored
    | HalfStored(attempt: nat)     // session stored, connect not yet
    | OpenFailed
    | Ready(attempt: nat)          // about to send the request
    | InRequest(attempt: nat)
    | Succeeded
    | Failed(attempt: nat)         // request failed, abort not yet asked
    | Closing(attempt: nat, aborted: bool)
    | Closed(attempt: nat, aborted: bool)
    | Done(ok: bool)

  /** What a call has done so far. */
  datatype Ledger = Ledger(acquires: nat, releases: nat, requests: nat, failures: nat, closes: nat)

  const NOTHING := Ledger(0, 0, 0, 0, 0)

  datatype Sender = Sender(pc: Pc, key: Key, conn: ConnId, hasAbort: bool, signaled: bool, ledger: Ledger)

  datatype System = System(pool: map<Key, ConnId>, conns: seq<Conn>, senders: map<Thread, Sender>)

  datatype Label =
    | Begin(key: Key, hasAbort: bool)
    | BeginMalformed               // the URL does not parse
    | Lookup
    | Take
    | FindOpen
    | OpenHandles
    | OpenFails
    | StoreSession
    | StoreConnect
    | Request
    | Reply(ok: bool)
    | AskAbort
    | Close
    | Release
    | Signal                       // someone signals the sender's abort handle

  ghost predicate Init(s: System) {
    s.pool == map[] && s.conns == [] && forall t :: t in s.senders ==> s.senders[t].pc.Outside?
  }

  predicate Holds(pc: Pc) {
    !pc.Outside? && !pc.Start? && !pc.Waiting? && !pc.Done?
  }

  predicate KnowsConn(pc: Pc) {
    Holds(pc) || pc.Waiting?
  }

  /** Where a release leads. */
  function AfterRelease(pc: Pc): Pc
    requires pc.OpenFailed? || pc.Succeeded? || pc.Closed?
  {
    match pc
    case OpenFailed => Done(false)
    case Succeeded => Done(true)
    case Closed(attempt, aborted) =>
      if aborted then Done(false) else if attempt == 0 then Start(1) else Done(false)
  }

  /** The steps a sender can take from its place in the code. */
  predicate Allows(pc: Pc, l: Label) {
    match l
    case Begin(_, _) => pc.Outside? || pc.Done?
    case BeginMalformed => pc.Outside? || pc.Done?
    case Lookup => pc.Start?
    case Take => pc.Waiting?
    case FindOpen => pc.Got?
    case OpenHandles => pc.Got?
    case OpenFails => pc.Got?
    case StoreSession => pc.Opened?
    case StoreConnect => pc.HalfStored?
    case Request => pc.Ready?
    case Reply(_) => pc.InRequest?
    case AskAbort => pc.Failed?
    case Close => pc.Closing?
    case Release => pc.OpenFailed? || pc.Succeeded? || pc.Closed?
    case Signal => true
  }

  /** What the step asks of the sender's connection: free to be taken, open or not. */
  predicate Permits(c: Conn, l: Label) {
    && (l.Take? ==> !c.inUse)
    && (l.FindOpen? ==> c.connect)
    && (l.OpenHandles? || l.OpenFails? ==> !c.connect)
  }

  /** The sender after a step; a lookup finds connection `found`. */
  function Moved(me: Sender, l: Label, found: ConnId): Sender
    requires Allows(me.pc, l)
  {
    var pc, led := me.pc, me.ledger;
    match l
    case Begin(key, hasAbort) => Sender(Start(0), key, 0, hasAbort, false, NOTHING)
    case BeginMalformed => me.(pc := Done(false), ledger := NOTHING)
    case Lookup => me.(pc := Waiting(pc.attempt), conn := found)
    case Take => me.(pc := Got(pc.attempt), ledger := led.(acquires := led.acquires + 1))
    case FindOpen => me.(pc := Ready(pc.attempt))
    case OpenHandles => me.(pc := Opened(pc.attempt))
    case OpenFails => me.(pc := OpenFailed)
    case StoreSession => me.(pc := HalfStored(pc.attempt))
    case StoreConnect => me.(pc := Ready(pc.attempt))
    case Request => me.(pc := InRequest(pc.attempt), ledger := led.(requests := led.requests + 1))
    case Reply(ok) =>
      if ok then me.(pc := Succeeded)
      else me.(pc := Failed(pc.attempt), ledger := led.(failures := led.failures + 1))
    case AskAbort => me.(pc := Closing(pc.attempt, me.hasAbort && me.signaled))
    case Close => me.(pc := Closed(pc.attempt, pc.aborted), ledger := led.(closes := led.closes + 1))
    case Release => me.(pc := AfterRelease(pc), ledger := led.(releases := led.releases + 1))
    case Signal => me.(signaled := true)
  }

  /** The sender's connection after a step. */
  function Changed(c: Conn, l: Label): Conn {
    match l
    case Take => c.(inUse := true)
    case StoreSession => c.(session := true)
    case StoreConnect => c.(connect := true)
    case Close => c.(session := false, connect := false)
    case Release => c.(inUse := false)
    case _ => c
  }

  /** The key is not in the pool yet, so that a lookup makes a connection for it. */
  predicate MakesConn(s: System, me: Sender, l: Label) {
    l.Lookup? && me.key !in s.pool
  }

  predicate CanStep(s: System, t: Thread, l: Label) {
    && t in s.senders
    && Allows(s.senders[t].pc, l)
    && (KnowsConn(s.senders[t].pc) ==>
          s.senders[t].conn < |s.conns| && Permits(s.conns[s.senders[t].conn], l))
  }

  function After(s: System, t: Thread, l: Label): System
    requires CanStep(s, t, l)
  {
    var me := s.senders[t];
    var found := if me.key in s.pool then s.pool[me.key] else |s.conns|;
    var pool := if MakesConn(s, me, l) then s.pool[me.key := |s.conns|] else s.pool;
    var conns := if MakesConn(s, me, l) then s.conns + [Conn(me.key, false, false, false)]
                 else if KnowsConn(me.pc) then s.conns[me.conn := Changed(s.conns[me.conn], l)]
                 else s.conns;
    System(pool, conns, s.senders[t := Moved(me, l, found)])
  }

  ghost predicate Next(s: System, t: Thread, l: Label, s': System) {
    CanStep(s, t, l) && s' == After(s, t, l)
  }

  // ---- what every reachable state satisfies ----

  /** The map and the connections name each other: one connection per key. */
  ghost predicate PoolInv(pool: map<Key, ConnId>, conns: seq<Conn>) {
    && (forall k :: k in pool ==> pool[k] < |conns| && conns[pool[k]].key == k)
    && (forall c :: 0 <= c < |conns| ==> conns[c].key in pool && pool[conns[c].key] == c)
  }

  /** A sender past its lookup has its key's connection, and marks it in use while it holds it. */
  ghost predicate SenderInv(pool: map<Key, ConnId>, conns: seq<Conn>, me: Sender) {
    && (KnowsConn(me.pc) ==> me.key in pool && pool[me.key] == me.conn && me.conn < |conns|)
    && (Holds(me.pc) ==> me.conn < |conns| && conns[me.conn].inUse && HandlesInv(conns[me.conn], me.pc))
    && LedgerInv(me)
  }

  /** The handles as the holder's place in the code has them. */
  ghost predicate HandlesInv(c: Conn, pc: Pc) {
    && (pc.Got? ==> c.session == c.connect)
    && (pc.Opened? || pc.OpenFailed? || pc.Closed? ==> !c.session && !c.connect)
    && (pc.HalfStored? ==> c.session && !c.connect)
    && (pc.Ready? || pc.InRequest? || pc.Succeeded? || pc.Failed? || pc.Closing? ==> c.session && c.connect)
  }

  /** What the call has done is determined by its place in the code and the attempt it is in. */
  ghost predicate LedgerInv(me: Sender) {
    var led := me.ledger;
    var n := led.releases;
    match me.pc
    case Outside => true
    case Start(a) => a <= 1 && led == Ledger(a, a, a, a, a)
    case Waiting(a) => a <= 1 && led == Ledger(a, a, a, a, a)
    case Got(a) => a <= 1 && led == Ledger(a + 1, a, a, a, a)
    case Opened(a) => a <= 1 && led == Ledger(a + 1, a, a, a, a)
    case HalfStored(a) => a <= 1 && led == Ledger(a + 1, a, a, a, a)
    case OpenFailed => n <= 1 && led == Ledger(n + 1, n, n, n, n)
    case Ready(a) => a <= 1 && led == Ledger(a + 1, a, a, a, a)
    case InRequest(a) => a <= 1 && led == Ledger(a + 1, a, a + 1, a, a)
    case Succeeded => n <= 1 && led == Ledger(n + 1, n, n + 1, n, n)
    case Failed(a) => a <= 1 && led == Ledger(a + 1, a, a + 1, a + 1, a)
    case Closing(a, _) => a <= 1 && led == Ledger(a + 1, a, a + 1, a + 1, a)
    case Closed(a, _) => a <= 1 && led == Ledger(a + 1, a, a + 1, a + 1, a + 1)
    case Done(ok) =>
      && led.acquires == n <= 2 && led.closes == led.failures
      && led.requests == led.failures + (if ok then 1 else 0) <= n
  }

  /** A connection in use has a holder, and a free one has both handles or neither. */
  ghost predicate ConnInv(s: System, c: ConnId)
    requires c < |s.conns|
  {
    && (s.conns[c].inUse ==> exists t :: t in s.senders && Holds(s.senders[t].pc) && s.senders[t].conn == c)
    && (!s.conns[c].inUse ==> s.conns[c].session == s.conns[c].connect)
  }

  ghost predicate Exclusive(senders: map<Thread, Sender>) {
    forall t, u | t in senders && u in senders && Holds(senders[t].pc) && Holds(senders[u].pc)
      :: senders[t].conn == senders[u].conn ==> t == u
  }

  ghost predicate Inv(s: System) {
    && PoolInv(s.pool, s.conns)
    && (forall t :: t in s.senders ==> SenderInv(s.pool, s.conns, s.senders[t]))
    && (forall c :: 0 <= c < |s.conns| ==> ConnInv(s, c))
    && Exclusive(s.senders)
  }

  /** A step other than the lookup of a new key changes at most the stepping sender's own connection,
      and that only while it holds it, or when it takes it. */
  lemma StepFrame(s: System, t: Thread, l: Label, s': System)
    requires Next(s, t, l, s')
    ensures s'.senders.Keys == s.senders.Keys
    ensures forall u :: u in s.senders && u != t ==> s'.senders[u] == s.senders[u]
    ensures |s.conns| <= |s'.conns|
    ensures forall c :: 0 <= c < |s.conns| ==> s'.conns[c].key == s.conns[c].key
    ensures forall c :: 0 <= c < |s.conns| && s'.conns[c] != s.conns[c] ==>
              s.senders[t].conn == c && (Holds(s.senders[t].pc) || (l.Take? && !s.conns[c].inUse))
    ensures if MakesConn(s, s.senders[t], l)
            then && s'.conns == s.conns + [Conn(s.senders[t].key, false, false, false)]
                 && s'.pool == s.pool[s.senders[t].key := |s.conns|]
            else |s'.conns| == |s.conns| && s'.pool == s.pool
  {
    hide Moved;
  }

  /** The steps up to the open connection. */
  predicate IsOpening(l: Label) {
    l.Begin? || l.BeginMalformed? || l.Lookup? || l.Take? || l.FindOpen? || l.OpenHandles? || l.OpenFails?
    || l.StoreSession? || l.StoreConnect?
  }

  lemma OpeningLedger(me: Sender, l: Label, found: ConnId)
    requires Allows(me.pc, l) && LedgerInv(me) && IsOpening(l)
    ensures LedgerInv(Moved(me, l, found))
  {
  }

  lemma RequestLedger(me: Sender, l: Label, found: ConnId)
    requires Allows(me.pc, l) && LedgerInv(me) && !IsOpening(l)
    ensures LedgerInv(Moved(me, l, found))
  {
  }

  lemma MovedLedger(me: Sender, l: Label, found: ConnId)
    requires Allows(me.pc, l) && LedgerInv(me)
    ensures LedgerInv(Moved(me, l, found))
  {
    hide Allows, LedgerInv, Moved;
    if IsOpening(l) { OpeningLedger(me, l, found); } else { RequestLedger(me, l, found); }
  }

  /** The stepping sender's key and connection stay while it knows one. */
  lemma MovedKeeps(me: Sender, l: Label, found: ConnId)
    requires Allows(me.pc, l)
    ensures var me' := Moved(me, l, found);
            && (KnowsConn(me'.pc) ==> me'.key == me.key && me'.conn == if l.Lookup? then found else me.conn)
            && (KnowsConn(me'.pc) ==> KnowsConn(me.pc) || l.Lookup?)
            && (Holds(me'.pc) <==> (Holds(me.pc) && !l.Release?) || l.Take?)
            && (Holds(me.pc) ==> !l.Take? && !l.Lookup?)
  {
  }

  lemma ChangedHandles(me: Sender, c: Conn, l: Label, found: ConnId)
    requires Allows(me.pc, l) && KnowsConn(me.pc) && Permits(c, l)
    requires if Holds(me.pc) then c.inUse && HandlesInv(c, me.pc) else l.Take? ==> c.session == c.connect
    ensures var c', pc' := Changed(c, l), Moved(me, l, found).pc;
            && (Holds(pc') ==> c'.inUse && HandlesInv(c', pc'))
            && (l.Release? ==> !c'.inUse && c'.session == c'.connect)
            && (!Holds(me.pc) && !l.Take? ==> c' == c)
  {
  }

  lemma StepSelf(s: System, t: Thread, l: Label, s': System)
    requires Inv(s) && Next(s, t, l, s')
    ensures SenderInv(s'.pool, s'.conns, s'.senders[t])
  {
    var me := s.senders[t];
    var found := if me.key in s.pool then s.pool[me.key] else |s.conns|;
    assert SenderInv(s.pool, s.conns, me);
    MovedLedger(me, l, found);
    MovedKeeps(me, l, found);
    if KnowsConn(me.pc) {
      if l.Take? { assert ConnInv(s, me.conn); }
      ChangedHandles(me, s.conns[me.conn], l, found);
    }
    hide Moved, Changed, Allows, Permits, LedgerInv, HandlesInv, ConnInv, Exclusive;
  }

  lemma StepOther(s: System, t: Thread, l: Label, s': System, u: Thread)
    requires Inv(s) && Next(s, t, l, s') && u in s.senders && u != t
    ensures SenderInv(s'.pool, s'.conns, s'.senders[u])
  {
    StepFrame(s, t, l, s');
    assert SenderInv(s.pool, s.conns, s.senders[u]) && SenderInv(s.pool, s.conns, s.senders[t]);
    hide Next, LedgerInv, HandlesInv, ConnInv;
  }

  /** The stepping sender's own connection: held after the step, or released consistent, or untouched. */
  lemma StepOwn(s: System, t: Thread, l: Label, s': System)
    requires Inv(s) && Next(s, t, l, s') && KnowsConn(s.senders[t].pc)
    ensures var c := s.senders[t].conn;
            && c < |s'.conns|
            && (Holds(s'.senders[t].pc) ==> s'.senders[t].conn == c)
            && (Holds(s'.senders[t].pc)
                || (!s'.conns[c].inUse && s'.conns[c].session == s'.conns[c].connect)
                || (s'.conns[c] == s.conns[c] && !Holds(s.senders[t].pc)))
  {
    var me := s.senders[t];
    var found := if me.key in s.pool then s.pool[me.key] else |s.conns|;
    assert SenderInv(s.pool, s.conns, me);
    MovedKeeps(me, l, found);
    if l.Take? { assert ConnInv(s, me.conn); }
    ChangedHandles(me, s.conns[me.conn], l, found);
    hide Moved, Changed, Permits, LedgerInv, HandlesInv, Exclusive, PoolInv, ConnInv;
  }

  lemma StepConn(s: System, t: Thread, l: Label, s': System, c: ConnId)
    requires Inv(s) && Next(s, t, l, s') && c < |s'.conns|
    ensures ConnInv(s', c)
  {
    StepFrame(s, t, l, s');
    if KnowsConn(s.senders[t].pc) { StepOwn(s, t, l, s'); }
    hide Next, LedgerInv, HandlesInv, Exclusive, PoolInv, SenderInv;
    if c < |s.conns| {
      assert ConnInv(s, c);
      if s'.conns[c].inUse && s.conns[c].inUse {
        var u :| u in s.senders && Holds(s.senders[u].pc) && s.senders[u].conn == c;
        assert u in s'.senders;
      }
    }
  }

  lemma StepHolder(s: System, t: Thread, l: Label, s': System)
    requires Next(s, t, l, s') && Holds(s'.senders[t].pc)
    ensures s'.senders[t].conn == s.senders[t].conn < |s.conns|
    ensures Holds(s.senders[t].pc) || !s.conns[s.senders[t].conn].inUse
  {
    var me := s.senders[t];
    MovedKeeps(me, l, if me.key in s.pool then s.pool[me.key] else |s.conns|);
    hide Moved, Changed;
  }

  lemma StepExclusive(s: System, t: Thread, l: Label, s': System)
    requires Inv(s) && Next(s, t, l, s')
    ensures Exclusive(s'.senders)
  {
    StepFrame(s, t, l, s');
    if Holds(s'.senders[t].pc) { StepHolder(s, t, l, s'); }
    hide Next, LedgerInv, HandlesInv, PoolInv, ConnInv;
    forall u | u in s.senders && u != t && Holds(s.senders[u].pc) && Holds(s'.senders[t].pc)
      ensures s.senders[u].conn != s'.senders[t].conn
    {
      assert SenderInv(s.pool, s.conns, s.senders[u]);
    }
  }

  lemma NextInv(s: System, t: Thread, l: Label, s': System)
    requires Inv(s) && Next(s, t, l, s')
    ensures Inv(s')
  {
    hide Next, SenderInv, ConnInv, Exclusive, HandlesInv, LedgerInv;
    StepFrame(s, t, l, s');
    StepSelf(s, t, l, s');
    forall u | u in s'.senders ensures SenderInv(s'.pool, s'.conns, s'.senders[u]) {
      if u != t { StepOther(s, t, l, s', u); }
    }
    forall c | 0 <= c < |s'.conns| ensures ConnInv(s', c) {
      StepConn(s, t, l, s', c);
    }
    StepExclusive(s, t, l, s');
  }

  // ---- runs ----

  datatype Run = Run(states: seq<System>, steps: seq<(Thread, Label)>)

  ghost predicate IsRun(r: Run) {
    && |r.states| == |r.steps| + 1
    && Init(r.states[0])
    && forall i :: 0 <= i < |r.steps| ==> Next(r.states[i], r.steps[i].0, r.steps[i].1, r.states[i + 1])
  }

  lemma {:induction false} RunInv(r: Run, i: nat)
    requires IsRun(r) && i < |r.states|
    ensures Inv(r.states[i])
  {
    if i > 0 {
      RunInv(r, i - 1);
      NextInv(r.states[i - 1], r.steps[i - 1].0, r.steps[i - 1].1, r.states[i]);
    }
  }

  /** A key's connection never changes along a run. */
  lemma {:induction false} PoolGrows(r: Run, i: nat, j: nat)
    requires IsRun(r) && i <= j < |r.states|
    ensures forall k :: k in r.states[i].pool ==> k in r.states[j].pool && r.states[j].pool[k] == r.states[i].pool[k]
  {
    hide Next;
    if i < j {
      PoolGrows(r, i, j - 1);
      StepFrame(r.states[j - 1], r.steps[j - 1].0, r.steps[j - 1].1, r.states[j]);
    }
  }

  /** Senders with equal keys have the same connection, and senders with different keys different ones,
      also when they are looked at in different states of a run. */
  ghost predicate SameConns(s: System, s': System) {
    forall t, u | t in s.senders && u in s'.senders && KnowsConn(s.senders[t].pc) && KnowsConn(s'.senders[u].pc)
      :: s.senders[t].key == s'.senders[u].key <==> s.senders[t].conn == s'.senders[u].conn
  }

  /** In every interleaving: a connection has at most one holder; at any two times equal keys mean the
      same connection and different keys different ones; and a free connection has both handles or
      neither. */
  lemma PoolSafe(r: Run, i: nat, j: nat)
    requires IsRun(r) && i <= j < |r.states|
    ensures Exclusive(r.states[i].senders) && SameConns(r.states[i], r.states[j])
    ensures forall c | 0 <= c < |r.states[i].conns| && !r.states[i].conns[c].inUse
              :: r.states[i].conns[c].session == r.states[i].conns[c].connect
  {
    RunInv(r, i);
    RunInv(r, j);
    PoolGrows(r, i, j);
    var s, s' := r.states[i], r.states[j];
    forall t, u | t in s.senders && u in s'.senders && KnowsConn(s.senders[t].pc) && KnowsConn(s'.senders[u].pc)
      ensures s.senders[t].key == s'.senders[u].key <==> s.senders[t].conn == s'.senders[u].conn
    {
      assert SenderInv(s.pool, s.conns, s.senders[t]) && SenderInv(s'.pool, s'.conns, s'.senders[u]);
    }
    forall c | 0 <= c < |s.conns| && !s.conns[c].inUse ensures s.conns[c].session == s.conns[c].connect {
      assert ConnInv(s, c);
    }
  }

  // ---- a sender's call, as the labels of its steps have it ----

  /** The step in which sender `t` began its last call, or -1. */
  function LastBegin(steps: seq<(Thread, Label)>, t: Thread): (b: int)
    ensures -1 <= b < |steps|
    ensures b >= 0 ==> steps[b].0 == t && (steps[b].1.Begin? || steps[b].1.BeginMalformed?)
    ensures forall k :: b < k < |steps| ==> !(steps[k].0 == t && (steps[k].1.Begin? || steps[k].1.BeginMalformed?))
  {
    if steps == [] then -1
    else
      var n := |steps| - 1;
      if steps[n].0 == t && (steps[n].1.Begin? || steps[n].1.BeginMalformed?) then n else LastBegin(steps[..n], t)
  }

  /** How often sender `t` took a step `l` since its last call began. */
  function Times(steps: seq<(Thread, Label)>, t: Thread, l: Label): nat {
    if steps == [] then 0
    else
      var n := |steps| - 1;
      if steps[n].0 == t && (steps[n].1.Begin? || steps[n].1.BeginMalformed?) then 0
      else Times(steps[..n], t, l) + if steps[n] == (t, l) then 1 else 0
  }

  /** What a sender knows of its call: the key and the handle it was begun with, whether the handle was
      signaled since, and how often each thing was done. */
  ghost predicate CallIs(me: Sender, steps: seq<(Thread, Label)>, t: Thread) {
    var b := LastBegin(steps, t);
    && (b < 0 ==> me.pc.Outside?)
    && (b >= 0 ==>
          && (steps[b].1.Begin? ==>
                && me.key == steps[b].1.key && me.hasAbort == steps[b].1.hasAbort
                && (me.signaled <==> Times(steps, t, Signal) > 0))
          && (steps[b].1.BeginMalformed? ==> me.pc == Done(false))
          && me.ledger == Ledger(Times(steps, t, Take), Times(steps, t, Release), Times(steps, t, Request),
                                 Times(steps, t, Reply(false)), Times(steps, t, Close)))
  }

  lemma TimesAppend(steps: seq<(Thread, Label)>, t: Thread, l: Label, u: Thread, x: Label)
    ensures LastBegin(steps + [(u, x)], t)
         == if u == t && (x.Begin? || x.BeginMalformed?) then |steps| else LastBegin(steps, t)
    ensures Times(steps + [(u, x)], t, l)
         == if u == t && (x.Begin? || x.BeginMalformed?) then 0
            else Times(steps, t, l) + if u == t && x == l then 1 else 0
  {
    assert (steps + [(u, x)])[..|steps|] == steps;
  }

  lemma CallStep(me: Sender, steps: seq<(Thread, Label)>, t: Thread, l: Label, found: ConnId)
    requires Allows(me.pc, l) && CallIs(me, steps, t)
    ensures CallIs(Moved(me, l, found), steps + [(t, l)], t)
  {
    TimesAppend(steps, t, Signal, t, l);
    TimesAppend(steps, t, Take, t, l);
    TimesAppend(steps, t, Release, t, l);
    TimesAppend(steps, t, Request, t, l);
    TimesAppend(steps, t, Reply(false), t, l);
    TimesAppend(steps, t, Close, t, l);
    hide Times, LastBegin;
  }

  lemma OthersCall(me: Sender, steps: seq<(Thread, Label)>, t: Thread, u: Thread, l: Label)
    requires u != t && CallIs(me, steps, t)
    ensures CallIs(me, steps + [(u, l)], t)
  {
    TimesAppend(steps, t, Signal, u, l);
    TimesAppend(steps, t, Take, u, l);
    TimesAppend(steps, t, Release, u, l);
    TimesAppend(steps, t, Request, u, l);
    TimesAppend(steps, t, Reply(false), u, l);
    TimesAppend(steps, t, Close, u, l);
    hide Times, LastBegin;
  }

  lemma {:induction false} RunCalls(r: Run, i: nat, t: Thread)
    requires IsRun(r) && i < |r.states| && t in r.states[i].senders
    ensures CallIs(r.states[i].senders[t], r.steps[..i], t)
  {
    if i > 0 {
      var s, u, l, s' := r.states[i - 1], r.steps[i - 1].0, r.steps[i - 1].1, r.states[i];
      assert Next(s, u, l, s');
      StepFrame(s, u, l, s');
      RunCalls(r, i - 1, t);
      assert r.steps[..i] == r.steps[..i - 1] + [(u, l)];
      hide CallIs, Moved, Changed;
      if u == t {
        var me := s.senders[t];
        CallStep(me, r.steps[..i - 1], t, l, if me.key in s.pool then s.pool[me.key] else |s.conns|);
      } else {
        OthersCall(s.senders[t], r.steps[..i - 1], t, u, l);
      }
    }
  }

  /** A call that has returned took as many releases as acquires, made at most two requests, closed the
      connection once per failed one, and succeeded exactly when its last request did. */
  lemma CallAccounted(r: Run, i: nat, t: Thread)
    requires IsRun(r) && i < |r.states| && t in r.states[i].senders && r.states[i].senders[t].pc.Done?
    ensures var steps, ok := r.steps[..i], r.states[i].senders[t].pc.ok;
            && LastBegin(steps, t) >= 0
            && Times(steps, t, Take) == Times(steps, t, Release) <= 2
            && Times(steps, t, Request) <= Times(steps, t, Take)
            && Times(steps, t, Close) == Times(steps, t, Reply(false))
            && Times(steps, t, Request) == Times(steps, t, Reply(false)) + (if ok then 1 else 0)
  {
    RunInv(r, i);
    RunCalls(r, i, t);
    assert SenderInv(r.states[i].pool, r.states[i].conns, r.states[i].senders[t]);
    hide Times, LastBegin;
  }

  /** The look at the abort handle after a failed request finds it signaled exactly when the call has one
      and it was signaled since the call began. */
  lemma AskFinds(r: Run, i: nat)
    requires IsRun(r) && i < |r.steps| && r.steps[i].1.AskAbort?
    ensures var t := r.steps[i].0;
            var b := LastBegin(r.steps[..i], t);
            && b >= 0 && r.steps[b].1.Begin?
            && t in r.states[i + 1].senders && r.states[i + 1].senders[t].pc.Closing?
            && (r.states[i + 1].senders[t].pc.aborted
                <==> r.steps[b].1.hasAbort && Times(r.steps[..i], t, Signal) > 0)
  {
    var t := r.steps[i].0;
    assert Next(r.states[i], t, AskAbort, r.states[i + 1]);
    RunCalls(r, i, t);
    hide Times, LastBegin;
  }

  /** A first attempt that will not be followed by another. */
  ghost predicate FirstOnly(me: Sender) {
    && me.hasAbort && me.signaled && me.ledger.requests <= 1
    && match me.pc
       case Start(a) => a == 0
       case Waiting(a) => a == 0
       case Got(a) => a == 0
       case Opened(a) => a == 0
       case HalfStored(a) => a == 0
       case OpenFailed => true
       case Ready(a) => a == 0
       case InRequest(a) => a == 0
       case Succeeded => true
       case Failed(a) => a == 0
       case Closing(a, aborted) => a == 0 && aborted
       case Closed(a, aborted) => a == 0 && aborted
       case Done(_) => true
       case Outside => false
  }

  lemma FirstOnlyStep(me: Sender, l: Label, found: ConnId)
    requires Allows(me.pc, l) && LedgerInv(me) && FirstOnly(me) && !l.Begin? && !l.BeginMalformed?
    ensures FirstOnly(Moved(me, l, found))
  {
  }

  /** The first attempt, up to the look at the handle. */
  predicate BeforeAsk(pc: Pc) {
    match pc
    case Start(a) => a == 0
    case Waiting(a) => a == 0
    case Got(a) => a == 0
    case Opened(a) => a == 0
    case HalfStored(a) => a == 0
    case Ready(a) => a == 0
    case InRequest(a) => a == 0
    case Failed(a) => a == 0
    case _ => false
  }

  lemma FirstOnlyNext(s: System, u: Thread, l: Label, s': System, t: Thread)
    requires Next(s, u, l, s') && t in s.senders && LedgerInv(s.senders[t]) && FirstOnly(s.senders[t])
    requires u == t ==> !l.Begin? && !l.BeginMalformed?
    ensures t in s'.senders && FirstOnly(s'.senders[t])
  {
    StepFrame(s, u, l, s');
    var me := s.senders[t];
    if u == t { FirstOnlyStep(me, l, if me.key in s.pool then s.pool[me.key] else |s.conns|); }
  }

  lemma SignalNext(s: System, t: Thread, s': System)
    requires Next(s, t, Signal, s') && LedgerInv(s.senders[t]) && s.senders[t].hasAbort && BeforeAsk(s.senders[t].pc)
    ensures t in s'.senders && FirstOnly(s'.senders[t])
  {
  }

  lemma LedgerAt(r: Run, i: nat, t: Thread)
    requires IsRun(r) && i < |r.states| && t in r.states[i].senders
    ensures LedgerInv(r.states[i].senders[t])
  {
    RunInv(r, i);
    assert SenderInv(r.states[i].pool, r.states[i].conns, r.states[i].senders[t]);
  }

  lemma {:induction false} StaysFirst(r: Run, k: nat, j: nat, t: Thread)
    requires IsRun(r) && k < j < |r.states| && r.steps[k] == (t, Signal) && t in r.states[k].senders
    requires r.states[k].senders[t].hasAbort && BeforeAsk(r.states[k].senders[t].pc)
    requires forall m :: k < m < j && r.steps[m].0 == t ==> !r.steps[m].1.Begin? && !r.steps[m].1.BeginMalformed?
    ensures t in r.states[j].senders && FirstOnly(r.states[j].senders[t])
  {
    hide Next, Init, FirstOnly, LedgerInv, BeforeAsk;
    if j - 1 == k {
      LedgerAt(r, k, t);
      SignalNext(r.states[k], t, r.states[j]);
    } else {
      StaysFirst(r, k, j - 1, t);
      LedgerAt(r, j - 1, t);
      FirstOnlyNext(r.states[j - 1], r.steps[j - 1].0, r.steps[j - 1].1, r.states[j], t);
    }
  }

  /** A call whose handle is signaled during its first attempt, before the look at it, makes at most one
      request in all: it never retries. */
  lemma SignaledNeverRetries(r: Run, k: nat, j: nat, t: Thread)
    requires IsRun(r) && k < j < |r.states| && r.steps[k] == (t, Signal) && t in r.states[k].senders
    requires r.states[k].senders[t].hasAbort && BeforeAsk(r.states[k].senders[t].pc)
    requires forall m :: k < m < j && r.steps[m].0 == t ==> !r.steps[m].1.Begin? && !r.steps[m].1.BeginMalformed?
    ensures Times(r.steps[..j], t, Request) <= 1
  {
    StaysFirst(r, k, j, t);
    SignaledBegan(r, k, j, t);
    RunCalls(r, j, t);
    hide IsRun, Times, LastBegin;
  }

  lemma SignaledBegan(r: Run, k: nat, j: nat, t: Thread)
    requires IsRun(r) && k < j < |r.states| && t in r.states[k].senders && !r.states[k].senders[t].pc.Outside?
    ensures LastBegin(r.steps[..j], t) >= 0
  {
    RunCalls(r, k, t);
    var b := LastBegin(r.steps[..k], t);
    assert r.steps[..j][b] == r.steps[..k][b];
  }

  /** A connection whose request failed is released closed. */
  lemma FailedReleasedClosed(r: Run, i: nat)
    requires IsRun(r) && i < |r.steps| && r.steps[i].1.Release?
    ensures var t := r.steps[i].0;
            && t in r.states[i].senders && r.states[i].senders[t].conn < |r.states[i + 1].conns|
            && var c := r.states[i + 1].conns[r.states[i].senders[t].conn];
               && !c.inUse
               && (r.states[i + 1].senders[t].pc.Start? <==>
                     r.states[i].senders[t].pc.Closed? && r.states[i].senders[t].pc == Closed(0, false))
               && (r.states[i].senders[t].pc.Closed? ==> !c.session && !c.connect)
               && (r.states[i].senders[t].pc.Succeeded? ==> c.session && c.connect)
  {
    RunInv(r, i);
    var s, t := r.states[i], r.steps[i].0;
    assert Next(s, t, r.steps[i].1, r.states[i + 1]);
    assert SenderInv(s.pool, s.conns, s.senders[t]);
  }

  lemma AbortedStep(s: System, t: Thread, l: Label, s': System, u: Thread)
    requires Next(s, t, l, s') && u in s.senders
    requires t == u ==> !l.Begin? && !l.BeginMalformed?
    ensures u in s'.senders
    ensures var pc, pc' := s.senders[u].pc, s'.senders[u].pc;
            pc == Done(false) || ((pc.Closing? || pc.Closed?) && pc.aborted) ==>
              && s'.senders[u].ledger.requests == s.senders[u].ledger.requests
              && (pc' == pc || (pc.Closing? && pc' == Closed(pc.attempt, true)) || (pc.Closed? && pc' == Done(false)))
  {
  }

  /** Once a failed attempt found the abort handle signaled, the call makes no further request: it
      goes on to close, release and return false. */
  lemma {:induction false} AbortedNeverRetries(r: Run, i: nat, j: nat, t: Thread)
    requires IsRun(r) && i <= j < |r.states| && t in r.states[i].senders
    requires r.states[i].senders[t].pc.Closing? && r.states[i].senders[t].pc.aborted
    requires forall k :: i <= k < j && r.steps[k].0 == t ==> !r.steps[k].1.Begin? && !r.steps[k].1.BeginMalformed?
    ensures t in r.states[j].senders
    ensures var me, now := r.states[i].senders[t], r.states[j].senders[t];
            && now.ledger.requests == me.ledger.requests
            && (now.pc == me.pc || now.pc == Closed(me.pc.attempt, true) || now.pc == Done(false))
  {
    if i < j {
      AbortedNeverRetries(r, i, j - 1, t);
      AbortedStep(r.states[j - 1], r.steps[j - 1].0, r.steps[j - 1].1, r.states[j], t);
    }
  }

  /** No deadlock: whoever waits for a connection can take it now, or its holder can take a step that
      leads on to the release; a holder never waits for a connection itself. */
  lemma WaitersProgress(r: Run, i: nat, t: Thread) returns (u: Thread, l: Label, s': System)
    requires IsRun(r) && i < |r.states| && t in r.states[i].senders && r.states[i].senders[t].pc.Waiting?
    ensures Next(r.states[i], u, l, s') && !l.Signal? && !l.Begin? && !l.BeginMalformed?
    ensures u == t || (u in r.states[i].senders && Holds(r.states[i].senders[u].pc)
                       && r.states[i].senders[u].conn == r.states[i].senders[t].conn)
  {
    RunInv(r, i);
    var s := r.states[i];
    var c := s.senders[t].conn;
    assert SenderInv(s.pool, s.conns, s.senders[t]);
    assert ConnInv(s, c);
    if !s.conns[c].inUse {
      u, l := t, Take;
      s' := After(s, t, Take);
    } else {
      u :| u in s.senders && Holds(s.senders[u].pc) && s.senders[u].conn == c;
      assert SenderInv(s.pool, s.conns, s.senders[u]);
      l, s' := HolderStep(s, u);
    }
  }

  /** How many of its own steps a holder is from its release, at most. */
  function StepsToRelease(pc: Pc): nat
    requires Holds(pc)
  {
    match pc
    case Got(_) => 9
    case Opened(_) => 8
    case HalfStored(_) => 7
    case Ready(_) => 6
    case InRequest(_) => 5
    case Failed(_) => 4
    case Closing(_, _) => 3
    case Closed(_, _) => 1
    case OpenFailed => 1
    case Succeeded => 1
  }

  lemma StepsBound(pc: Pc)
    requires Holds(pc)
    ensures StepsToRelease(pc) <= 9
  {
  }

  lemma HolderDescends(s: System, t: Thread, l: Label, s': System)
    requires Next(s, t, l, s') && Holds(s.senders[t].pc) && !l.Signal?
    ensures var pc, pc' := s.senders[t].pc, s'.senders[t].pc;
            if l.Release? then !Holds(pc') else Holds(pc') && StepsToRelease(pc') < StepsToRelease(pc)
  {
  }

  lemma OthersStand(s: System, t: Thread, l: Label, s': System, u: Thread)
    requires Next(s, t, l, s') && u in s.senders && (u != t || l.Signal?)
    ensures u in s'.senders && s'.senders[u].pc == s.senders[u].pc
  {
  }

  /** The steps sender `t` takes by itself between two states of a run. */
  ghost function OwnSteps(r: Run, i: nat, j: nat, t: Thread): nat
    requires i <= j <= |r.steps|
    decreases j - i
  {
    if i == j then 0
    else OwnSteps(r, i, j - 1, t) + if r.steps[j - 1].0 == t && !r.steps[j - 1].1.Signal? then 1 else 0
  }

  ghost predicate HoldsAt(r: Run, k: nat, t: Thread)
    requires k < |r.states|
  {
    t in r.states[k].senders && Holds(r.states[k].senders[t].pc)
  }

  /** A holder keeps its connection for at most nine of its own steps, whatever the outcomes: every one
      brings the release nearer, and no step of another sender takes it further away. */
  lemma {:induction false} HolderReleases(r: Run, i: nat, j: nat, t: Thread)
    requires IsRun(r) && i <= j < |r.states|
    requires forall k :: i <= k <= j ==> HoldsAt(r, k, t)
    ensures HoldsAt(r, i, t) && HoldsAt(r, j, t)
    ensures OwnSteps(r, i, j, t) + StepsToRelease(r.states[j].senders[t].pc)
         <= StepsToRelease(r.states[i].senders[t].pc) <= 9
  {
    hide Next, StepsToRelease, Holds, Init;
    assert HoldsAt(r, i, t) && HoldsAt(r, j, t);
    StepsBound(r.states[i].senders[t].pc);
    if i < j {
      HolderReleases(r, i, j - 1, t);
      var s, u, l, s' := r.states[j - 1], r.steps[j - 1].0, r.steps[j - 1].1, r.states[j];
      assert Next(s, u, l, s') && HoldsAt(r, j - 1, t);
      if u == t && !l.Signal? {
        HolderDescends(s, t, l, s');
      } else {
        OthersStand(s, u, l, s', t);
      }
    }
  }

  lemma HolderStep(s: System, u: Thread) returns (l: Label, s': System)
    requires u in s.senders && Holds(s.senders[u].pc) && s.senders[u].conn < |s.conns|
    ensures Next(s, u, l, s') && !l.Signal? && !l.Begin? && !l.BeginMalformed?
  {
    match s.senders[u].pc {
      case Got(_) => l := if s.conns[s.senders[u].conn].connect then FindOpen else OpenFails;
      case Opened(_) => l := StoreSession;
      case HalfStored(_) => l := StoreConnect;
      case Ready(_) => l := Request;
      case InRequest(_) => l := Reply(true);
      case Failed(_) => l := AskAbort;
      case Closing(_, _) => l := Close;
      case OpenFailed => l := Release;
      case Succeeded => l := Release;
      case Closed(_, _) => l := Release;
    }
    s' := After(s, u, l);
  }
}
