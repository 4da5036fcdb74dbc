/** The reservation map as a concurrent protocol. Each step is one critical section under the map's mutex: a put, a
    get, the scan of the expiry handler, or one of the deletions the handler makes after it has let the mutex go.
    Between two steps of one thread any steps of other threads can happen. */
module RtcpProtocol {
  import opened Khash
  import opened UrMap

  const RTCP_TIMEOUT := 300
  const MAX_TOKEN_DEL := 1024
  const CLOCK := 0x1_0000_0000

  type Token = Key
  type Socket = nat
  /** A moment in true, unbounded time. The program sees it modulo 2^32. */
  type Moment = nat

  /** rtcp_alloc_type: the socket and when it expires. */
  datatype Alloc = Alloc(s: Socket, t: nat)

  /** What became of a socket. Dropped: nobody closes or returns it any more. */
  datatype Outcome = Reserved(s: Socket) | Returned(s: Socket) | Closed(s: Socket) | Dropped(s: Socket)

  /** An expiry handler between its scan and its last deletion. Not in the program: `since`, the tokens
      put since the scan, and `all`, that the scan's array did not fill up. */
  datatype Handler = Handler(tokens: seq<Token>, at: Moment, since: set<Token>, all: bool)

  type Table = map<Token, Alloc>

  datatype State = State(table: Table, handlers: map<nat, Handler>, log: seq<Outcome>)

  datatype Step =
    | Put(token: Token, s: Socket, now: Moment)
    | PutFull(token: Token, victim: Token)
    | Get(token: Token)
    | Scan(h: nat, now: Moment, picked: seq<Token>)
    | Del(h: nat)

  const INIT := State(map[], map[], [])

  /** turn_time_before: the 32-bit difference, read as a signed number, is negative. */
  predicate TimeBefore(t1: nat, t2: nat) {
    (t1 - t2) % CLOCK >= CLOCK / 2
  }

  function Expiry(now: Moment): nat {
    (now % CLOCK + RTCP_TIMEOUT) % CLOCK
  }

  predicate Expired(table: Table, token: Token, now: Moment) {
    token in table && TimeBefore(table[token].t, now % CLOCK)
  }

  /** Of an entry put at one moment and looked at in another: exactly when it is taken for expired. */
  lemma ExpiredExactly(put: Moment, now: Moment)
    ensures TimeBefore(Expiry(put), now % CLOCK) <==> 1 <= (now - put - 300) % 0x1_0000_0000 <= 0x8000_0000
  {
    var d := now - put - 300;
    assert (Expiry(put) - now % CLOCK) % CLOCK == (-d) % CLOCK by {
      SameRemainder(put, now);
    }
    Negated(d);
  }

  lemma SameRemainder(put: Moment, now: Moment)
    ensures (Expiry(put) - now % CLOCK) % CLOCK == (put + 300 - now) % CLOCK
  {
    var a, b := (put % CLOCK + 300) / CLOCK, put / CLOCK;
    assert Expiry(put) - now % CLOCK == put + 300 - now + CLOCK * (now / CLOCK - b - a);
    Turns(put + 300 - now, now / CLOCK - b - a);
  }

  lemma Turns(x: int, k: int)
    ensures (x + CLOCK * k) % CLOCK == x % CLOCK
  {
    assert x + CLOCK * k == CLOCK * (x / CLOCK + k) + x % CLOCK;
  }

  lemma Negated(d: int)
    ensures (-d) % CLOCK == if d % CLOCK == 0 then 0 else CLOCK - d % CLOCK
  {
    assert -d == CLOCK * (-(d / CLOCK) - 1) + (CLOCK - d % CLOCK);
  }

  /** The moments from which on an entry can be told by a 32-bit clock. */
  predicate InReach(put: Moment, now: Moment) {
    put <= now <= put + 300 + 0x8000_0000
  }

  /** For 68 years this is when 300 seconds have passed since the put. */
  lemma ExpiredInTime(put: Moment, now: Moment)
    requires InReach(put, now)
    ensures TimeBefore(Expiry(put), now % CLOCK) <==> put + 300 < now
  {
    ExpiredExactly(put, now);
  }

  /** After that exactly the moments in every other half of the clock's range count as expired. */
  lemma ExpiredTooLate(put: Moment, now: Moment)
    requires put <= now
    ensures (TimeBefore(Expiry(put), now % CLOCK) <==> put + 300 < now)
      <==> now <= put + 300 || 1 <= (now - put - 300) % 0x1_0000_0000 <= 0x8000_0000
    ensures now == put + 300 + 0x8000_0001 ==> !TimeBefore(Expiry(put), now % CLOCK)
  {
    ExpiredExactly(put, now);
  }

  /** When the entries of a table were put. */
  type Puts = map<Token, Moment>

  ghost predicate PutThen(table: Table, puts: Puts) {
    table.Keys == puts.Keys && forall token :: token in table ==> table[token].t == Expiry(puts[token])
  }

  lemma PutThenMore(table: Table, puts: Puts, token: Token, s: Socket, now: Moment)
    requires PutThen(table, puts)
    ensures PutThen(table[token := Alloc(s, Expiry(now))], puts[token := now])
  {
  }

  lemma PutThenLess(table: Table, puts: Puts, token: Token)
    requires PutThen(table, puts)
    ensures PutThen(table - {token}, puts - {token})
    ensures token !in table ==> table - {token} == table && puts - {token} == puts
  {
  }

  /** The listed entries are those put more than 300 seconds ago, all of them unless the list is full. */
  ghost predicate PickedInTime(puts: Puts, now: Moment, picked: seq<Token>) {
    && |picked| <= 1024
    && (forall token | token in picked :: token in puts && (InReach(puts[token], now) ==> puts[token] + 300 < now))
    && (|picked| < 1024 ==>
          forall token | token in puts && InReach(puts[token], now) && puts[token] + 300 < now :: token in picked)
  }

  lemma ScanInTime(table: Table, puts: Puts, now: Moment, picked: seq<Token>)
    requires LegalScan(table, now, picked) && PutThen(table, puts)
    ensures PickedInTime(puts, now, picked)
  {
    forall token | token in puts && InReach(puts[token], now)
      ensures Expired(table, token, now) <==> puts[token] + 300 < now
    {
      ExpiredInTime(puts[token], now);
    }
    hide TimeBefore, Expiry;
  }

  /** A scan picks expired entries, each once; all of them, unless its array is full. */
  ghost predicate LegalScan(table: Table, now: Moment, picked: seq<Token>) {
    && |picked| <= MAX_TOKEN_DEL
    && (forall i :: 0 <= i < |picked| ==> Expired(table, picked[i], now))
    && (forall i, j :: 0 <= i < j < |picked| ==> picked[i] != picked[j])
    && (|picked| < MAX_TOKEN_DEL ==> forall token :: Expired(table, token, now) ==> token in picked)
  }

  ghost predicate Enabled(st: State, step: Step) {
    match step
    case Put(_, _, _) => true
    case PutFull(token, victim) => token !in st.table && victim in st.table && |st.table| >= MAX_BUCKETS
    case Get(_) => true
    case Scan(h, now, picked) => h !in st.handlers && LegalScan(st.table, now, picked)
    case Del(h) => h in st.handlers && st.handlers[h].tokens != []
  }

  function PutSince(handlers: map<nat, Handler>, token: Token): map<nat, Handler> {
    map h | h in handlers :: handlers[h].(since := handlers[h].since + {token})
  }

  ghost function Next(st: State, step: Step): State
    requires Enabled(st, step)
  {
    match step
    case Put(token, s, now) =>
      // the old entry of the token, if there is one, is overwritten without closing its socket
      var lost := if token in st.table then [Dropped(st.table[token].s)] else [];
      State(st.table[token := Alloc(s, Expiry(now))], PutSince(st.handlers, token), st.log + lost + [Reserved(s)])
    case PutFull(token, victim) =>
      st.(table := st.table - {victim}, log := st.log + [Dropped(st.table[victim].s)])
    case Get(token) =>
      if token in st.table
      then st.(table := st.table - {token}, log := st.log + [Returned(st.table[token].s)])
      else st
    case Scan(h, now, picked) =>
      st.(handlers := st.handlers[h := Handler(picked, now, {}, |picked| < MAX_TOKEN_DEL)])
    case Del(h) =>
      var token := st.handlers[h].tokens[0];
      var rest := st.handlers[h].(tokens := st.handlers[h].tokens[1..]);
      if token in st.table
      then State(st.table - {token}, st.handlers[h := rest], st.log + [Closed(st.table[token].s)])
      else st.(handlers := st.handlers[h := rest])
  }

  ghost predicate IsRun(steps: seq<Step>, states: seq<State>) {
    && |states| == |steps| + 1 && states[0] == INIT
    && forall i :: 0 <= i < |steps| ==> Enabled(states[i], steps[i]) && states[i + 1] == Next(states[i], steps[i])
  }

  // ---------- every reserved socket has one fate ----------

  function Ins(log: seq<Outcome>, s: Socket): nat {
    if log == [] then 0 else Ins(log[..|log| - 1], s) + (if log[|log| - 1] == Reserved(s) then 1 else 0)
  }

  predicate IsEnd(o: Outcome, s: Socket) {
    o == Returned(s) || o == Closed(s) || o == Dropped(s)
  }

  function Outs(log: seq<Outcome>, s: Socket): nat {
    if log == [] then 0 else Outs(log[..|log| - 1], s) + (if IsEnd(log[|log| - 1], s) then 1 else 0)
  }

  function Holders(table: Table, s: Socket): set<Token> {
    set token | token in table && table[token].s == s
  }

  ghost predicate Balanced(st: State, s: Socket) {
    Ins(st.log, s) == Outs(st.log, s) + |Holders(st.table, s)|
  }

  lemma LogOne(log: seq<Outcome>, o: Outcome, s: Socket)
    ensures Ins(log + [o], s) == Ins(log, s) + if o == Reserved(s) then 1 else 0
    ensures Outs(log + [o], s) == Outs(log, s) + if IsEnd(o, s) then 1 else 0
  {
  }

  lemma HoldersWithout(table: Table, token: Token, s: Socket)
    requires token in table
    ensures |Holders(table - {token}, s)| == |Holders(table, s)| - if table[token].s == s then 1 else 0
  {
    assert Holders(table - {token}, s) == Holders(table, s) - {token};
  }

  lemma HoldersWith(table: Table, token: Token, a: Alloc, s: Socket)
    requires token !in table
    ensures |Holders(table[token := a], s)| == |Holders(table, s)| + if a.s == s then 1 else 0
  {
    if a.s == s {
      assert Holders(table[token := a], s) == Holders(table, s) + {token};
    } else {
      assert Holders(table[token := a], s) == Holders(table, s);
    }
  }

  lemma PutBalances(st: State, token: Token, s': Socket, now: Moment, s: Socket)
    requires Balanced(st, s)
    ensures Balanced(Next(st, Put(token, s', now)), s)
  {
    hide Ins, Outs, Holders, Expiry;
    var a := Alloc(s', Expiry(now));
    if token in st.table {
      HoldersWithout(st.table, token, s);
      HoldersWith(st.table - {token}, token, a, s);
      assert (st.table - {token})[token := a] == st.table[token := a];
      LogOne(st.log, Dropped(st.table[token].s), s);
      LogOne(st.log + [Dropped(st.table[token].s)], Reserved(s'), s);
    } else {
      HoldersWith(st.table, token, a, s);
      LogOne(st.log, Reserved(s'), s);
      assert st.log + [] == st.log;
    }
  }

  /** An entry leaves the table and its socket's end is logged. */
  lemma EndBalances(st: State, st': State, token: Token, o: Outcome, s: Socket)
    requires Balanced(st, s) && token in st.table && IsEnd(o, st.table[token].s)
    requires st'.table == st.table - {token} && st'.log == st.log + [o]
    ensures Balanced(st', s)
  {
    hide Ins, Outs, Holders;
    HoldersWithout(st.table, token, s);
    LogOne(st.log, o, s);
  }

  lemma StepBalances(st: State, step: Step, s: Socket)
    requires Enabled(st, step) && Balanced(st, s)
    ensures Balanced(Next(st, step), s)
  {
    hide Ins, Outs, Holders;
    match step
    case Put(token, s', now) => PutBalances(st, token, s', now, s);
    case PutFull(token, victim) =>
      EndBalances(st, Next(st, step), victim, Dropped(st.table[victim].s), s);
    case Get(token) =>
      if token in st.table {
        EndBalances(st, Next(st, step), token, Returned(st.table[token].s), s);
      }
    case Scan(_, _, _) =>
    case Del(h) =>
      var token := st.handlers[h].tokens[0];
      if token in st.table {
        EndBalances(st, Next(st, step), token, Closed(st.table[token].s), s);
      }
  }

  /** In every state of every run, a socket has been reserved exactly as often as it has been returned, closed or
      dropped, plus once for each entry that still holds it. */
  lemma {:induction false} Conservation(steps: seq<Step>, states: seq<State>, i: nat, s: Socket)
    requires IsRun(steps, states) && i < |states|
    ensures Balanced(states[i], s)
  {
    if i == 0 {
      assert Holders(map[], s) == {};
    } else {
      Conservation(steps, states, i - 1, s);
      StepBalances(states[i - 1], steps[i - 1], s);
    }
  }

  /** The step overwrites, or takes out of the full table, an entry that holds the socket. */
  ghost predicate Drops(st: State, step: Step, s: Socket)
    requires Enabled(st, step)
  {
    || (step.Put? && step.token in st.table && st.table[step.token].s == s)
    || (step.PutFull? && st.table[step.victim].s == s)
  }

  ghost predicate DropsAt(steps: seq<Step>, states: seq<State>, j: nat, s: Socket)
    requires IsRun(steps, states) && j < |steps|
  {
    Drops(states[j], steps[j], s)
  }

  lemma DropsOne(st: State, step: Step, s: Socket)
    requires Enabled(st, step)
    ensures Dropped(s) in Next(st, step).log <==> Dropped(s) in st.log || Drops(st, step, s)
  {
  }

  /** Over every run, a socket is leaked exactly by a put of a token whose present entry holds it, or by a put into a
      full table that takes the entry that holds it. */
  lemma {:induction false} DroppedExactly(steps: seq<Step>, states: seq<State>, i: nat, s: Socket)
    requires IsRun(steps, states) && i < |states|
    ensures Dropped(s) in states[i].log <==> exists j: nat :: j < i && DropsAt(steps, states, j, s)
  {
    if i == 0 {
    } else {
      DroppedExactly(steps, states, i - 1, s);
      DropsOne(states[i - 1], steps[i - 1], s);
      var last := i - 1;
      assert DropsAt(steps, states, last, s) <==> Drops(states[last], steps[last], s);
    }
  }

  function Count(log: seq<Outcome>, o: Outcome): nat {
    if log == [] then 0 else Count(log[..|log| - 1], o) + (if log[|log| - 1] == o then 1 else 0)
  }

  lemma {:induction false} OutsCounted(log: seq<Outcome>, s: Socket)
    ensures Outs(log, s) == Count(log, Returned(s)) + Count(log, Closed(s)) + Count(log, Dropped(s))
    ensures Count(log, Dropped(s)) > 0 <==> Dropped(s) in log
  {
    if log == [] {
    } else {
      OutsCounted(log[..|log| - 1], s);
    }
  }

  /** Held by one token and by nobody else, returned once, or closed once: one of the three, and neither of the
      others. */
  ghost predicate Settled(st: State, s: Socket) {
    var held, returned, closed := |Holders(st.table, s)|, Count(st.log, Returned(s)), Count(st.log, Closed(s));
    || (held == 1 && returned == 0 && closed == 0)
    || (held == 0 && returned == 1 && closed == 0)
    || (held == 0 && returned == 0 && closed == 1)
  }

  /** In every run, a socket that was reserved once has one of these fates if and only if no step leaked it. */
  lemma OneFateExactly(steps: seq<Step>, states: seq<State>, i: nat, s: Socket)
    requires IsRun(steps, states) && i < |states| && Ins(states[i].log, s) == 1
    ensures Settled(states[i], s) <==> forall j: nat :: j < i ==> !DropsAt(steps, states, j, s)
  {
    Conservation(steps, states, i, s);
    OutsCounted(states[i].log, s);
    DroppedExactly(steps, states, i, s);
  }

  /** So if no token is put while it is present, and the table never fills up, no reserved socket is ever leaked. */
  lemma OneFate(steps: seq<Step>, states: seq<State>, i: nat, s: Socket)
    requires IsRun(steps, states) && i < |states| && Ins(states[i].log, s) == 1
    requires forall j :: 0 <= j < i ==> !steps[j].PutFull? && (steps[j].Put? ==> steps[j].token !in states[j].table)
    ensures Settled(states[i], s)
  {
    OneFateExactly(steps, states, i, s);
  }

  const LEAK_STEPS := [Put(7, 1, 0), Put(7, 2, 0)]

  ghost const LEAK_STATES := [
    INIT,
    State(map[7 := Alloc(1, 300)], map[], [Reserved(1)]),
    State(map[7 := Alloc(2, 300)], map[], [Reserved(1), Dropped(1), Reserved(2)])
  ]

  /** A run in which a socket is leaked: its token is put again while it is there. */
  lemma ReusedTokenLeaks()
    ensures IsRun(LEAK_STEPS, LEAK_STATES) && Dropped(1) in LEAK_STATES[2].log && !Settled(LEAK_STATES[2], 1)
  {
    var table: Table := map[];
    assert table[7 := Alloc(1, 300)][7 := Alloc(2, 300)] == map[7 := Alloc(2, 300)];
    assert Next(LEAK_STATES[0], LEAK_STEPS[0]) == LEAK_STATES[1];
    assert Next(LEAK_STATES[1], LEAK_STEPS[1]) == LEAK_STATES[2];
    assert DropsAt(LEAK_STEPS, LEAK_STATES, 1, 1);
    OneFateExactly(LEAK_STEPS, LEAK_STATES, 2, 1);
  }

  // ---------- which sockets expiry closes ----------

  /** What a waiting handler knows: an entry whose token has not been put again since the scan is on the handler's
      list only if it was expired then, and, unless the list was full, also if. */
  ghost predicate HandlersRight(st: State) {
    forall h, token :: h in st.handlers && token in st.table && token !in st.handlers[h].since ==>
      && (token in st.handlers[h].tokens ==> Expired(st.table, token, st.handlers[h].at))
      && (st.handlers[h].all && Expired(st.table, token, st.handlers[h].at) ==> token in st.handlers[h].tokens)
  }

  lemma StepRight(st: State, step: Step)
    requires Enabled(st, step) && HandlersRight(st)
    ensures HandlersRight(Next(st, step))
  {
    hide Expired;
    var st' := Next(st, step);
    forall h, token | h in st'.handlers && token in st'.table && token !in st'.handlers[h].since
      ensures token in st'.handlers[h].tokens ==> Expired(st'.table, token, st'.handlers[h].at)
      ensures st'.handlers[h].all && Expired(st'.table, token, st'.handlers[h].at) ==> token in st'.handlers[h].tokens
    {
      if step.Scan? && h == step.h {
        LegalScanRight(st.table, step.now, step.picked, token);
      } else {
        assert h in st.handlers && token !in st.handlers[h].since;
        if token in st.table {
          ExpiredSame(st.table, st'.table, token, st.handlers[h].at);
        }
      }
    }
  }

  lemma LegalScanRight(table: Table, now: Moment, picked: seq<Token>, token: Token)
    requires LegalScan(table, now, picked)
    ensures token in picked ==> Expired(table, token, now)
    ensures |picked| < MAX_TOKEN_DEL && Expired(table, token, now) ==> token in picked
  {
  }

  lemma ExpiredSame(table: Table, table': Table, token: Token, now: Moment)
    requires token in table && token in table' && table[token] == table'[token]
    ensures Expired(table, token, now) == Expired(table', token, now)
  {
  }

  lemma {:induction false} RunRight(steps: seq<Step>, states: seq<State>, i: nat)
    requires IsRun(steps, states) && i < |states|
    ensures HandlersRight(states[i])
  {
    if i == 0 {
    } else {
      RunRight(steps, states, i - 1);
      StepRight(states[i - 1], steps[i - 1]);
    }
  }

  /** In every run, a deletion by the expiry handler closes a socket that was expired when the handler scanned, or
      one whose token has been put again since; it closes nothing else. */
  lemma ExpiryCloses(steps: seq<Step>, states: seq<State>, i: nat)
    requires IsRun(steps, states) && i < |steps| && steps[i].Del?
    ensures var st, hd := states[i], states[i].handlers[steps[i].h];
      var token := hd.tokens[0];
      && (token !in st.table ==> states[i + 1].table == st.table && states[i + 1].log == st.log)
      && (token in st.table ==>
            && states[i + 1].table == st.table - {token}
            && states[i + 1].log == st.log + [Closed(st.table[token].s)]
            && (token in hd.since || Expired(st.table, token, hd.at)))
  {
    RunRight(steps, states, i);
  }

  /** A handler that has worked off its list has left nothing behind that was expired when it scanned, unless its
      array was full. */
  lemma ExpiryFinishes(steps: seq<Step>, states: seq<State>, i: nat, h: nat, token: Token)
    requires IsRun(steps, states) && i < |states| && h in states[i].handlers
    requires states[i].handlers[h].tokens == [] && states[i].handlers[h].all
    requires token !in states[i].handlers[h].since
    ensures !Expired(states[i].table, token, states[i].handlers[h].at)
  {
    RunRight(steps, states, i);
  }

  /** Step j is the last put of the token before step i. */
  ghost predicate LastPut(steps: seq<Step>, j: nat, i: nat, token: Token)
    requires i <= |steps|
  {
    && j < i && steps[j].Put? && steps[j].token == token
    && forall k :: j < k < i ==> !(steps[k].Put? && steps[k].token == token)
  }

  /** In every run, what an entry holds comes from the last put of its token. */
  lemma {:induction false} EntryPut(steps: seq<Step>, states: seq<State>, i: nat, token: Token)
    requires IsRun(steps, states) && i < |states| && token in states[i].table
    ensures exists j: nat | LastPut(steps, j, i, token) ::
      states[i].table[token] == Alloc(steps[j].s, Expiry(steps[j].now))
  {
    if i == 0 {
    } else {
      var last := i - 1;
      var step := steps[last];
      if step.Put? && step.token == token {
        assert LastPut(steps, last, i, token);
      } else {
        EntryPut(steps, states, last, token);
        var j: nat :| LastPut(steps, j, last, token)
          && states[last].table[token] == Alloc(steps[j].s, Expiry(steps[j].now));
        assert LastPut(steps, j, i, token);
      }
    }
  }

  /** So a handler that has worked off its list has left nothing behind that was put more than 300 seconds before its
      scan and not again since, unless its array was full. */
  lemma FinishedInTime(steps: seq<Step>, states: seq<State>, i: nat, h: nat, token: Token)
    requires IsRun(steps, states) && i < |states| && h in states[i].handlers && token in states[i].table
    requires states[i].handlers[h].tokens == [] && states[i].handlers[h].all
    requires token !in states[i].handlers[h].since
    ensures exists j: nat | LastPut(steps, j, i, token) ::
      (InReach(steps[j].now, states[i].handlers[h].at) ==> states[i].handlers[h].at <= steps[j].now + 300)
  {
    hide Next, Enabled;
    EntryPut(steps, states, i, token);
    ExpiryFinishes(steps, states, i, h, token);
    var j: nat :| LastPut(steps, j, i, token)
      && states[i].table[token] == Alloc(steps[j].s, Expiry(steps[j].now));
    if InReach(steps[j].now, states[i].handlers[h].at) {
      ExpiredInTime(steps[j].now, states[i].handlers[h].at);
    }
  }

  /** And with tokens that never repeat it closes only sockets reserved more than 300 seconds before its scan. */
  lemma ClosedInTime(steps: seq<Step>, states: seq<State>, i: nat)
    requires IsRun(steps, states) && i < |steps| && steps[i].Del? && TokensNeverRepeat(steps)
    ensures var st, hd := states[i], states[i].handlers[steps[i].h];
      var token := hd.tokens[0];
      token in st.table ==> exists j: nat | LastPut(steps, j, i, token) ::
        st.table[token].s == steps[j].s && (InReach(steps[j].now, hd.at) ==> steps[j].now + 300 < hd.at)
  {
    OnlyExpiredClosed(steps, states, i);
    var st, hd := states[i], states[i].handlers[steps[i].h];
    hide Next;
    var token := hd.tokens[0];
    if token in st.table {
      EntryPut(steps, states, i, token);
      var j: nat :| LastPut(steps, j, i, token) && st.table[token] == Alloc(steps[j].s, Expiry(steps[j].now));
      if InReach(steps[j].now, hd.at) {
        ExpiredInTime(steps[j].now, hd.at);
      }
    }
  }

  ghost predicate TokensNeverRepeat(steps: seq<Step>) {
    forall i, j :: 0 <= i < j < |steps| && steps[i].Put? && steps[j].Put? ==> steps[i].token != steps[j].token
  }

  function PutTokens(steps: seq<Step>): set<Token> {
    if steps == [] then {}
    else
      var step := steps[|steps| - 1];
      PutTokens(steps[..|steps| - 1]) + (if step.Put? then {step.token} else {})
  }

  lemma PutTokensOne(steps: seq<Step>, i: nat)
    requires 0 < i <= |steps|
    ensures PutTokens(steps[..i]) == if steps[i - 1].Put? then PutTokens(steps[..i - 1]) + {steps[i - 1].token}
                                     else PutTokens(steps[..i - 1])
  {
    assert steps[..i][..i - 1] == steps[..i - 1];
  }

  lemma {:induction false} PutTokensFound(steps: seq<Step>, token: Token)
    requires token in PutTokens(steps)
    ensures exists j :: 0 <= j < |steps| && steps[j].Put? && steps[j].token == token
  {
    var last := |steps| - 1;
    if !(steps[last].Put? && steps[last].token == token) {
      PutTokensFound(steps[..last], token);
      var j :| 0 <= j < last && steps[..last][j].Put? && steps[..last][j].token == token;
      assert steps[j].Put? && steps[j].token == token;
    }
  }

  /** Only tokens of `used` are in the table or on a handler's list, and none of the latter has been put again. */
  ghost predicate Fresh(st: State, used: set<Token>) {
    && (forall token :: token in st.table ==> token in used)
    && (forall h, token :: FreshOn(st, used, h, token))
  }

  ghost predicate FreshOn(st: State, used: set<Token>, h: nat, token: Token) {
    h in st.handlers && token in st.handlers[h].tokens ==> token in used && token !in st.handlers[h].since
  }

  lemma StepUsed(st: State, step: Step, token: Token)
    requires Enabled(st, step) && token in Next(st, step).table
    ensures token in st.table || (step.Put? && token == step.token)
  {
  }

  lemma StepListed(st: State, step: Step, h: nat, token: Token)
    requires Enabled(st, step) && h in Next(st, step).handlers && token in Next(st, step).handlers[h].tokens
    ensures token in st.table || (h in st.handlers && token in st.handlers[h].tokens)
    ensures token in Next(st, step).handlers[h].since ==>
      || (step.Put? && token == step.token)
      || (h in st.handlers && token in st.handlers[h].tokens && token in st.handlers[h].since)
  {
    if step.Scan? && step.h == h {
      LegalScanRight(st.table, step.now, step.picked, token);
    }
    hide LegalScan;
  }

  lemma StepFresh(st: State, step: Step, used: set<Token>)
    requires Enabled(st, step) && Fresh(st, used) && (step.Put? ==> step.token !in used)
    ensures Fresh(Next(st, step), if step.Put? then used + {step.token} else used)
  {
    hide Next, Enabled;
    var st' := Next(st, step);
    var used' := if step.Put? then used + {step.token} else used;
    forall token | token in st'.table ensures token in used' {
      StepUsed(st, step, token);
    }
    forall h, token ensures FreshOn(st', used', h, token) {
      assert FreshOn(st, used, h, token);
      if h in st'.handlers && token in st'.handlers[h].tokens {
        StepListed(st, step, h, token);
      }
    }
  }

  /** With tokens that never repeat, nothing on a handler's list is ever put again. */
  lemma {:induction false} RunFresh(steps: seq<Step>, states: seq<State>, i: nat)
    requires IsRun(steps, states) && i < |states| && TokensNeverRepeat(steps)
    ensures Fresh(states[i], PutTokens(steps[..i]))
  {
    if i == 0 {
    } else {
      RunFresh(steps, states, i - 1);
      hide Fresh, Next, Enabled, PutTokens;
      var step := steps[i - 1];
      PutTokensOne(steps, i);
      if step.Put? && step.token in PutTokens(steps[..i - 1]) {
        PutTokensFound(steps[..i - 1], step.token);
      }
      StepFresh(states[i - 1], step, PutTokens(steps[..i - 1]));
    }
  }

  /** If tokens never repeat, the expiry handler closes only sockets that were expired when it scanned. */
  lemma OnlyExpiredClosed(steps: seq<Step>, states: seq<State>, i: nat)
    requires IsRun(steps, states) && i < |steps| && steps[i].Del? && TokensNeverRepeat(steps)
    ensures var st, hd := states[i], states[i].handlers[steps[i].h];
      hd.tokens[0] in st.table ==> Expired(st.table, hd.tokens[0], hd.at)
  {
    RunRight(steps, states, i);
    RunFresh(steps, states, i);
    var h := steps[i].h;
    assert FreshOn(states[i], PutTokens(steps[..i]), h, states[i].handlers[h].tokens[0]);
  }

  // ---------- ... and when tokens do repeat ----------

  /** The clock does not run backwards, and the run is shorter than 2^31 - 300 seconds. */
  ghost predicate SteadyClock(steps: seq<Step>) {
    forall i, j :: 0 <= i < j < |steps| && steps[i].Scan? && steps[j].Put? ==>
      steps[i].now <= steps[j].now < steps[i].now + CLOCK / 2 - RTCP_TIMEOUT
  }

  lemma JustPutNotExpired(at: Moment, now: Moment)
    requires at <= now < at + CLOCK / 2 - RTCP_TIMEOUT
    ensures !TimeBefore(Expiry(now), at % CLOCK)
  {
  }

  function ScanTimes(steps: seq<Step>): set<Moment> {
    if steps == [] then {}
    else
      var step := steps[|steps| - 1];
      ScanTimes(steps[..|steps| - 1]) + (if step.Scan? then {step.now} else {})
  }

  lemma ScanTimesOne(steps: seq<Step>, i: nat)
    requires 0 < i <= |steps|
    ensures ScanTimes(steps[..i]) == if steps[i - 1].Scan? then ScanTimes(steps[..i - 1]) + {steps[i - 1].now}
                                     else ScanTimes(steps[..i - 1])
  {
    assert steps[..i][..i - 1] == steps[..i - 1];
  }

  lemma {:induction false} ScanTimesFound(steps: seq<Step>, at: Moment)
    requires at in ScanTimes(steps)
    ensures exists j :: 0 <= j < |steps| && steps[j].Scan? && steps[j].now == at
  {
    var last := |steps| - 1;
    if !(steps[last].Scan? && steps[last].now == at) {
      ScanTimesFound(steps[..last], at);
      var j :| 0 <= j < last && steps[..last][j].Scan? && steps[..last][j].now == at;
      assert steps[j].Scan? && steps[j].now == at;
    }
  }

  /** What has been put since a waiting handler's scan is not expired by the time of that scan. */
  ghost predicate Timely(st: State, scans: set<Moment>) {
    forall h :: h in st.handlers ==>
      && st.handlers[h].at in scans
      && forall token :: token in st.handlers[h].since ==> !Expired(st.table, token, st.handlers[h].at)
  }

  ghost predicate NotLong(scans: set<Moment>, now: Moment) {
    forall at :: at in scans ==> at <= now < at + CLOCK / 2 - RTCP_TIMEOUT
  }

  lemma StepTimely(st: State, step: Step, scans: set<Moment>)
    requires Enabled(st, step) && Timely(st, scans)
    requires step.Put? ==> NotLong(scans, step.now)
    ensures Timely(Next(st, step), if step.Scan? then scans + {step.now} else scans)
  {
    hide TimeBefore, Expiry;
    var st' := Next(st, step);
    forall h, token | h in st'.handlers && token in st'.handlers[h].since
      ensures !Expired(st'.table, token, st'.handlers[h].at)
    {
      assert h in st.handlers;
      if step.Put? && step.token == token {
        JustPutNotExpired(st.handlers[h].at, step.now);
      } else {
        assert token in st.handlers[h].since;
      }
    }
  }

  lemma {:induction false} RunTimely(steps: seq<Step>, states: seq<State>, i: nat)
    requires IsRun(steps, states) && i < |states| && SteadyClock(steps)
    ensures Timely(states[i], ScanTimes(steps[..i]))
  {
    if i == 0 {
    } else {
      RunTimely(steps, states, i - 1);
      hide Timely, Next, Enabled, ScanTimes;
      var step := steps[i - 1];
      ScanTimesOne(steps, i);
      if step.Put? {
        var earlier := steps[..i - 1];
        var scans := ScanTimes(earlier);
        forall at | at in scans ensures at <= step.now < at + CLOCK / 2 - RTCP_TIMEOUT {
          ScanTimesFound(earlier, at);
        }
      }
      StepTimely(states[i - 1], step, ScanTimes(steps[..i - 1]));
    }
  }

  /** With a steady clock, the expiry handler closes a socket that was not expired exactly when its token has been
      put again between the scan and the deletion. */
  lemma LiveClosedExactly(steps: seq<Step>, states: seq<State>, i: nat)
    requires IsRun(steps, states) && i < |steps| && steps[i].Del? && SteadyClock(steps)
    ensures var st, hd := states[i], states[i].handlers[steps[i].h];
      var token := hd.tokens[0];
      token in st.table ==> (!Expired(st.table, token, hd.at) <==> token in hd.since)
  {
    RunRight(steps, states, i);
    RunTimely(steps, states, i);
  }

  const REUSE_STEPS := [Put(7, 1, 0), Scan(0, 301, [7]), Get(7), Put(7, 2, 301), Del(0)]

  ghost const REUSE_STATES := [
    INIT,
    State(map[7 := Alloc(1, 300)], map[], [Reserved(1)]),
    State(map[7 := Alloc(1, 300)], map[0 := Handler([7], 301, {}, true)], [Reserved(1)]),
    State(map[], map[0 := Handler([7], 301, {}, true)], [Reserved(1), Returned(1)]),
    State(map[7 := Alloc(2, 601)], map[0 := Handler([7], 301, {7}, true)], [Reserved(1), Returned(1), Reserved(2)]),
    State(map[], map[0 := Handler([], 301, {7}, true)], [Reserved(1), Returned(1), Reserved(2), Closed(2)])
  ]

  lemma ReuseFirst()
    ensures Next(REUSE_STATES[0], REUSE_STEPS[0]) == REUSE_STATES[1]
    ensures LegalScan(REUSE_STATES[1].table, 301, [7])
    ensures Next(REUSE_STATES[1], REUSE_STEPS[1]) == REUSE_STATES[2]
  {
  }

  lemma ReuseThen()
    ensures Next(REUSE_STATES[2], REUSE_STEPS[2]) == REUSE_STATES[3]
    ensures Next(REUSE_STATES[3], REUSE_STEPS[3]) == REUSE_STATES[4]
  {
    var hs := REUSE_STATES[3].handlers;
    assert hs[0].since + {7} == {7};
    assert PutSince(hs, 7) == REUSE_STATES[4].handlers;
  }

  lemma ReuseLast()
    ensures Next(REUSE_STATES[4], REUSE_STEPS[4]) == REUSE_STATES[5]
  {
    assert REUSE_STATES[4].handlers[0].tokens[1..] == [];
  }

  /** A run in which that happens: the token is scanned, fetched and put again, and then the handler gets to it. */
  lemma ReusedTokenCloses()
    ensures IsRun(REUSE_STEPS, REUSE_STATES) && SteadyClock(REUSE_STEPS)
    ensures REUSE_STATES[5].log == REUSE_STATES[4].log + [Closed(2)]
    ensures 7 in REUSE_STATES[4].table && !Expired(REUSE_STATES[4].table, 7, 301)
  {
    hide Next;
    ReuseFirst();
    ReuseThen();
    ReuseLast();
  }
}
